/** The first exchange with a device: verify_device and send_message of dev_handler/dev_handler.c against one
    iteration of Device::loop. */
module Handshake {
  import opened Basics
  import opened Payload
  import Frame
  import Lowcar

  /** send_message of the host. */
  method SendMessage(c: Frame.NetStream.Channel, msg: Frame.Message) returns (ret: int)
    requires |msg.payload| <= MAX_PAYLOAD_SIZE
    modifies c`output, c`calls
    ensures ret == 0 && c.output == old(c.output) + Frame.FrameOf(msg)
  {
    var data := new byte[Frame.MaxCobsMsgLength(|msg.payload|)];
    var len := Frame.MessageToBytes(msg, data, data.Length);
    var transferred := c.WriteN(data[..len]);
    ret := if transferred == len then 0 else -1;
  }

  /** The rest of verify_device: the first message must be an acknowledgement, and `id` is what lies at the start
      of its payload; `ack` is what the fresh payload buffer holds. */
  method AwaitAck(c: Frame.NetStream.Channel, ack: seq<byte>, mem: Frame.Memory, past: byte) returns (ret: int, id: seq<byte>)
    requires |ack| == MAX_PAYLOAD_SIZE
    modifies c`input, c`calls
    ensures var o := Frame.Receive(old(c.input), false, mem, Frame.Message(Lowcar.NOP, []));
            && ret == (if o.ret == 0 && o.msg.id == Frame.ACKNOWLEDGEMENT then 0 else 2)
            && (ret == 0 && |o.msg.payload| >= 10 ==> id == o.msg.payload[..10])
  {
    hide Frame.Receive;
    id := [];
    var got;
    ret, got := Frame.ReceiveMessage(c, false, Frame.Message(Lowcar.NOP, []), mem, past);
    if ret != 0 {
      return 2, id;
    } else if got.id != Frame.ACKNOWLEDGEMENT {
      return 2, id;
    }
    var payload := got.payload + if |got.payload| < |ack| then ack[|got.payload|..] else [];
    id := [payload[0]] + [payload[1]] + payload[2..10];
    assert id == payload[..10];
  }

  // ------------------------------------------------------------------ what a device puts on the wire

  function FrameBytes(e: Lowcar.Event): (r: seq<byte>)
  {
    match e
    case Ack(p) => Frame.FrameOf(Frame.Message(Frame.ACKNOWLEDGEMENT, p))
    case Data(p) => Frame.FrameOf(Frame.Message(DEVICE_DATA, p))
    case _ => []
  }

  function OnTheWire(es: seq<Lowcar.Event>): (r: seq<byte>)
  {
    if es == [] then [] else OnTheWire(es[..|es| - 1]) + FrameBytes(es[|es| - 1])
  }

  predicate Sendable(e: Lowcar.Event)
  {
    (e.Ack? ==> 10 <= |e.payload| <= MAX_PAYLOAD_SIZE) && (e.Data? ==> |e.payload| <= MAX_PAYLOAD_SIZE)
  }

  /** send_message for everything that an iteration sends. */
  method Transmit(es: seq<Lowcar.Event>, serialWrite: nat -> nat) returns (stream: seq<byte>)
    requires forall e :: e in es ==> Sendable(e)
    ensures stream == OnTheWire(es)
  {
    hide Frame.FrameOf;
    stream := [];
    for k := 0 to |es|
      invariant stream == OnTheWire(es[..k])
    {
      assert es[..k + 1][..k] == es[..k] && es[..k + 1][k] == es[k];
      var e := es[k];
      assert e in es;
      var status, sent := Frame.SUCCESS, [];
      match e {
        case Ack(p) =>
          var at := |p| - 10;
          status, sent := Frame.DeviceSendMessage(Frame.ACKNOWLEDGEMENT, p[..at], p[at..], serialWrite);
          assert p[..at] + p[at..] == p;
        case Data(p) =>
          status, sent := Frame.DeviceSendMessage(DEVICE_DATA, p, [0, 0, 0, 0, 0, 0, 0, 0, 0, 0], serialWrite);
        case _ =>
      }
      stream := stream + sent;
    }
    assert es[..|es|] == es;
  }

  // ------------------------------------------------------------------ the exchange

  /** What an iteration that receives the host's ping sends: first the acknowledgement, if the device was
      disabled; at most data otherwise. */
  lemma PingAnswered(timeout: nat, t: Lowcar.Timing, now: int, buffer: seq<byte>, gives: Sizes, devId: Lowcar.DeviceId, acted: Values)
    returns (rest: seq<Lowcar.Event>)
    requires |buffer| == MAX_PAYLOAD_SIZE
    ensures var es := Lowcar.Does(timeout, t, now, Lowcar.Got(Lowcar.DEVICE_PING, []), buffer, gives, devId, acted);
            && (forall e :: e in es ==> Sendable(e))
            && (!t.enabled ==> es == [Lowcar.Ack(devId)] + rest)
            && (t.enabled ==> es == [Lowcar.Actions] + rest && (rest == [] || (|rest| == 1 && rest[0].Data?)))
  {
    hide ValuePayload;
    var es := Lowcar.Does(timeout, t, now, Lowcar.Got(Lowcar.DEVICE_PING, []), buffer, gives, devId, acted);
    assert [] + devId == devId;
    assert es != [];
    rest := es[1..];
    assert es == [es[0]] + rest;
  }

  lemma {:induction false} WireHead(e: Lowcar.Event, rest: seq<Lowcar.Event>)
    ensures OnTheWire([e] + rest) == FrameBytes(e) + OnTheWire(rest)
    decreases |rest|
  {
    hide FrameBytes;
    if rest == [] {
      assert [e] + rest == [e];
    } else {
      var n := |rest| - 1;
      WireHead(e, rest[..n]);
      assert ([e] + rest)[..|rest|] == [e] + rest[..n];
      assert FrameBytes(e) + OnTheWire(rest[..n]) + FrameBytes(rest[n]) == FrameBytes(e) + (OnTheWire(rest[..n]) + FrameBytes(rest[n]));
    }
  }

  lemma WireOne(e: Lowcar.Event)
    ensures OnTheWire([e]) == FrameBytes(e) && OnTheWire([]) == []
  {
    WireHead(e, []);
    assert [e] + [] == [e] && FrameBytes(e) + [] == FrameBytes(e);
  }

  /** verify_device meets a device: the host's ping travels to the device behind any zero-free noise, one iteration
      of its loop answers, and the host reads the answer with whatever follows it. A disabled device is accepted
      with its own id; one that is still enabled sends no acknowledgement and is refused. */
  method VerifyDevice(host: Frame.NetStream.Channel, device: Lowcar.Device, now: int, hooks: Values -> Values, noise: seq<byte>,
                      more: seq<byte>, pace: nat -> nat, serialWrite: nat -> nat, ack: seq<byte>, mem: Frame.Memory, past: byte,
                      prev: Frame.Message)
    returns (ret: int, id: seq<byte>)
    requires host.output == [] && device.Valid() && 0 !in noise && |ack| == MAX_PAYLOAD_SIZE
    modifies host, device, device.payload, device.regs
    ensures device.enabled && device.lastPing == now && device.regs[..] == hooks(old(device.regs[..]))
    ensures !old(device.enabled) ==> ret == 0 && id == device.devId
    ensures old(device.enabled) && more == [] ==> ret == 2
  {
    hide Frame.FrameOf, Lowcar.Does, Frame.Receive, Frame.DeviceReceive;
    var ping := Frame.Message(Lowcar.DEVICE_PING, []);
    ret := SendMessage(host, ping);
    assert host.output == [] + Frame.FrameOf(ping) == Frame.FrameOf(ping);
    Frame.DeviceReceiveFrame(noise, ping, [], mem, past, prev);
    assert noise + Frame.FrameOf(ping) + [] == noise + host.output;
    var status, got, left := Frame.DeviceReadMessage(noise + host.output, mem, past, prev);
    assert got == ping;
    ghost var t, buffer, enabled := device.View(), Lowcar.Received(Lowcar.Got(got.id, got.payload), device.payload[..]), device.enabled;
    var before := |device.events|;
    device.Loop(now, Lowcar.Got(got.id, got.payload), hooks);
    ghost var rest := PingAnswered(device.timeout, t, now, buffer, device.gives, device.devId, device.regs[..]);
    var es := device.events[before..];
    var stream := Transmit(es, serialWrite);
    var c := new Frame.NetStream.Channel(stream + more, pace);
    Answer(es, rest, device.devId, enabled, more, mem);
    ret, id := AwaitAck(c, ack, mem, past);
  }

  /** What the unverified host makes of that answer. */
  lemma Answer(es: seq<Lowcar.Event>, rest: seq<Lowcar.Event>, devId: Lowcar.DeviceId, enabled: bool, more: seq<byte>, mem: Frame.Memory)
    requires forall e :: e in es ==> Sendable(e)
    requires !enabled ==> es == [Lowcar.Ack(devId)] + rest
    requires enabled ==> es == [Lowcar.Actions] + rest && (rest == [] || (|rest| == 1 && rest[0].Data?))
    ensures var o := Frame.Receive(OnTheWire(es) + more, false, mem, Frame.Message(Lowcar.NOP, []));
            && (!enabled ==> o.ret == 0 && o.msg == Frame.Message(Frame.ACKNOWLEDGEMENT, devId))
            && (enabled && more == [] ==> o.ret != 0 || o.msg.id == DEVICE_DATA)
  {
    hide Frame.FrameOf, Frame.Receive, OnTheWire;
    var none := Frame.Message(Lowcar.NOP, []);
    Frame.ReceiveUnverified(none, [], [], mem, none);
    if !enabled {
      var m := Frame.Message(Frame.ACKNOWLEDGEMENT, devId);
      WireHead(Lowcar.Ack(devId), rest);
      Frame.ReceiveUnverified(m, OnTheWire(rest) + more, [], mem, none);
      assert OnTheWire(es) + more == Frame.FrameOf(m) + (OnTheWire(rest) + more);
    } else if more == [] {
      WireHead(Lowcar.Actions, rest);
      WireOne(Lowcar.Actions);
      if rest == [] {
        assert OnTheWire(es) + more == [];
      } else {
        assert es[1] in es && rest == [rest[0]] && rest[0] == es[1];
        WireOne(rest[0]);
        var m := Frame.Message(DEVICE_DATA, rest[0].payload);
        Frame.ReceiveUnverified(m, [], [], mem, none);
        assert OnTheWire(es) + more == Frame.FrameOf(m) + [];
      }
    }
  }
}
