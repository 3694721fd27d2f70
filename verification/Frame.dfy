/** Checksummed, COBS-encoded message frames between host and device: dev_handler/message.c
    (message_to_bytes, parse_message), dev_handler/dev_handler.c (receive_message) and
    lowcar/devices/Device/Messenger.cpp (send_message, read_message). */
module Frame {
  import opened Basics
  import opened Cobs
  import NetStream

  datatype Message = Message(id: byte, payload: seq<byte>)

  /** What an uninitialised buffer happens to hold, long enough for every index the code can form. */
  type Memory = m: seq<byte> | |m| == 258 witness seq(258, i => 0)

  // ------------------------------------------------------------------ format

  /** Exclusive or of all bytes. */
  function Checksum(data: seq<byte>): (r: byte)
    requires data != []
  {
    if |data| == 1 then data[0] else Xor(Checksum(data[..|data| - 1]), data[|data| - 1])
  }

  function Covered(m: Message): (r: seq<byte>) { [m.id, |m.payload| % 256] + m.payload }

  function Body(m: Message): (r: seq<byte>) { Covered(m) + [Checksum(Covered(m))] }

  function FrameOf(m: Message): (r: seq<byte>) { [0, |Encode(Body(m))| % 256] + Encode(Body(m)) }

  /** calc_max_cobs_msg_length */
  function MaxCobsMsgLength(payloadLength: nat): (n: nat)
  {
    var packet := 1 + 1 + payloadLength + 1;
    1 + 1 + (packet + packet / 254 + 1)
  }

  // ------------------------------------------------------------------ checksum

  /** checksum, the same loop on both sides. */
  method ComputeChecksum(data: seq<byte>, len: nat) returns (chk: byte)
    requires 0 < len <= |data|
    ensures chk == Checksum(data[..len])
  {
    hide Xor;
    chk := data[0];
    assert data[..1] == [data[0]];
    for i := 1 to len
      invariant chk == Checksum(data[..i])
    {
      assert data[..i + 1][..i] == data[..i];
      chk := Xor(chk, data[i]);
    }
  }

  /** Changing any one byte changes the checksum. */
  lemma {:induction false} ChecksumDetects(data: seq<byte>, k: nat, v: byte)
    requires k < |data| && v != data[k]
    ensures Checksum(data[k := v]) != Checksum(data)
    decreases |data|
  {
    hide Xor;
    var n := |data| - 1;
    var changed := data[k := v];
    if n > 0 {
      var front := Checksum(data[..n]);
      if k < n {
        assert changed[..n] == data[..n][k := v];
        ChecksumDetects(data[..n], k, v);
        var front' := Checksum(changed[..n]);
        XorCommutes(front, data[n]);
        XorCommutes(front', data[n]);
        if Xor(front', data[n]) == Xor(front, data[n]) { XorInjective(data[n], front', front); }
      } else {
        assert changed[..n] == data[..n];
        if Xor(front, v) == Xor(front, data[n]) { XorInjective(front, v, data[n]); }
      }
    }
  }

  /** How many bytes of `data` have bit `j` on. */
  function OnCount(data: seq<byte>, j: nat): (n: nat)
  {
    if data == [] then 0 else OnCount(data[..|data| - 1], j) + if OnIn(data[|data| - 1], j) then 1 else 0
  }

  /** A bit of the checksum is on exactly if an odd number of bytes has it on. */
  lemma {:induction false} ChecksumParity(data: seq<byte>, j: nat)
    requires data != [] && j < 8
    ensures OnIn(Checksum(data), j) <==> OnCount(data, j) % 2 == 1
  {
    hide Xor, OnIn;
    var n := |data| - 1;
    if n > 0 {
      ChecksumParity(data[..n], j);
      XorOn(Checksum(data[..n]), data[n], j);
    } else {
      assert OnCount(data[..0], j) == 0;
    }
  }

  // ------------------------------------------------------------------ host: serialise

  /** The intermediate byte array of message_to_bytes. */
  method SerializeBody(msg: Message) returns (data: array<byte>)
    ensures fresh(data) && data[..] == Body(msg)
  {
    hide Xor;
    var n := |msg.payload|;
    data := new byte[n + 3];
    data[0] := msg.id;
    data[1] := n % 256;
    for i := 0 to n
      invariant data[0] == msg.id && data[1] == n % 256
      invariant data[2..2 + i] == msg.payload[..i]
    {
      data[i + 2] := msg.payload[i];
      assert data[2..2 + i + 1] == data[2..2 + i] + [msg.payload[i]];
    }
    assert data[..2 + n] == data[..2] + data[2..2 + n];
    assert data[..2 + n] == Covered(msg) && data[..][..2 + n] == data[..2 + n];
    var chk := ComputeChecksum(data[..], 2 + n);
    data[2 + n] := chk;
    assert data[..] == data[..2 + n] + [chk];
  }

  /** message_to_bytes; `len` is what the caller says is the size of `cobsEncoded`. */
  method MessageToBytes(msg: Message, cobsEncoded: array<byte>, len: nat) returns (ret: int)
    requires len <= cobsEncoded.Length
    modifies cobsEncoded
    ensures ret == -1 <==> len < MaxCobsMsgLength(|msg.payload|)
    ensures ret == -1 ==> cobsEncoded[..] == old(cobsEncoded[..])
    ensures ret != -1 ==> 0 <= ret <= len && cobsEncoded[..ret] == FrameOf(msg)
  {
    hide Encode, Checksum, Xor;
    if len < MaxCobsMsgLength(|msg.payload|) {
      return -1;
    }
    var data := SerializeBody(msg);
    cobsEncoded[0] := 0;
    var cobsLen := CobsEncode(cobsEncoded, 2, data[..]);
    assert cobsEncoded[0] == cobsEncoded[..2][0];
    cobsEncoded[1] := cobsLen % 256;
    ret := 1 + 1 + cobsLen;
    EncodeLength(Body(msg));
    assert cobsEncoded[..ret] == cobsEncoded[..2] + cobsEncoded[2..2 + cobsLen];
  }

  // ------------------------------------------------------------------ host: parse

  /** What parse_message makes of decoded bytes `d` that lie in front of `mem`: return code and message. */
  function ParseBody(d: seq<byte>, mem: Memory): (r: (int, Message))
    requires 3 <= |d| <= 3 + MAX_PAYLOAD_SIZE
  {
    var decoded := d + mem[|d|..];
    var n := decoded[1];
    (if Checksum(decoded[..2 + n]) == decoded[2 + n] then 0 else 1, Message(decoded[0], decoded[2..2 + n]))
  }

  /** parse_message on the encoded bytes `src`; a message of invalid length leaves the caller's untouched. */
  function ParseEncoded(src: seq<byte>, mem: Memory, prev: Message): (r: (int, Message))
  {
    var d := Decode(src, true);
    if d.None? || |d.value| < 3 || |d.value| > 3 + MAX_PAYLOAD_SIZE then (3, prev) else ParseBody(d.value, mem)
  }

  /** parse_message */
  method ParseMessage(data: seq<byte>, prev: Message, mem: Memory, past: byte) returns (ret: int, msg: Message)
    requires |data| >= 2 && |data| - 2 == data[1]
    ensures (ret, msg) == ParseEncoded(data[2..], mem, prev)
  {
    hide Xor;
    var decoded := new byte[258](i requires 0 <= i < 258 => mem[i]);
    assert decoded[..] == mem;
    StoredBytes(data[2..], past, true);
    var len := CobsDecode(decoded, data[2..], past, true);
    if len < 3 || len > 3 + MAX_PAYLOAD_SIZE {
      return 3, prev;
    }
    var n: int := decoded[1];
    msg := Message(decoded[0], decoded[2..2 + n]);
    var expected := ComputeChecksum(decoded[..], 2 + n);
    var received := decoded[2 + n];
    ret := if expected != received then 1 else 0;
  }

  // ------------------------------------------------------------------ host: receive

  /** The stream behind its first zero byte. */
  function AfterDelimiter(s: seq<byte>): (r: Option<seq<byte>>)
  {
    if s == [] then None else if s[0] == 0 then Some(s[1..]) else AfterDelimiter(s[1..])
  }

  /** The outcome of one receive_message: its return value, the message, and the unread stream. */
  datatype Receipt = Receipt(ret: int, msg: Message, rest: seq<byte>)

  /** receive_message once the delimiter has been consumed. */
  function ReceiveBody(r: seq<byte>, mem: Memory, prev: Message): (o: Receipt)
  {
    if r == [] then Receipt(1, prev, [])
    else if r[0] > 1 + 1 + MAX_PAYLOAD_SIZE + 1 + 1 || r[0] < 1 + 1 + 1 + 1 then Receipt(1, prev, r[1..])
    else if |r| - 1 < r[0] then Receipt(1, prev, [])
    else
      var p := ParseEncoded(r[1..1 + r[0]], mem, prev);
      Receipt(if p.0 != 0 then 2 else 0, p.1, r[1 + r[0]..])
  }

  function Receive(s: seq<byte>, verified: bool, mem: Memory, prev: Message): (o: Receipt)
  {
    if verified then
      var r := AfterDelimiter(s);
      if r.None? then Receipt(1, prev, []) else ReceiveBody(r.value, mem, prev)
    else if s == [] then Receipt(3, prev, [])
    else if s[0] != 0 then Receipt(1, prev, s[1..])
    else ReceiveBody(s[1..], mem, prev)
  }

  /** receive_message, reading from a descriptor that may deliver few bytes at a time. */
  method ReceiveMessage(c: NetStream.Channel, verified: bool, prev: Message, mem: Memory, past: byte) returns (ret: int, msg: Message)
    modifies c`input, c`calls
    ensures Receive(old(c.input), verified, mem, prev) == Receipt(ret, msg, c.input)
  {
    hide Xor;
    msg := prev;
    var num, last, cobsLen, rest;
    if !verified {
      last := c.Read(1);
      if last == [] {
        return 3, msg;
      } else if last[0] != 0 {
        return 1, msg;
      }
    } else {
      ghost var start := c.input;
      while true
        invariant AfterDelimiter(c.input) == AfterDelimiter(start)
        decreases |c.input|
      {
        ghost var before := c.input;
        num, last := c.ReadN(1);
        if num == 0 {
          return 1, msg;
        }
        assert last[0] == before[0];
        if last[0] == 0 {
          break;
        }
      }
    }
    ghost var r := c.input;
    num, cobsLen := c.ReadN(1);
    if num != 1 {
      return 1, msg;
    } else if cobsLen[0] > 1 + 1 + MAX_PAYLOAD_SIZE + 1 + 1 {
      return 1, msg;
    } else if cobsLen[0] < 1 + 1 + 1 + 1 {
      return 1, msg;
    }
    num, rest := c.ReadN(cobsLen[0]);
    if num != cobsLen[0] {
      return 1, msg;
    }
    assert r[1..][..cobsLen[0]] == r[1..1 + cobsLen[0]] && r[1..][cobsLen[0]..] == r[1 + cobsLen[0]..];
    var data := [0, cobsLen[0]] + rest;
    assert data[2..] == rest;
    ret, msg := ParseMessage(data, prev, mem, past);
    if ret != 0 {
      return 2, msg;
    }
  }

  // ------------------------------------------------------------------ frames are received

  lemma DecodedShape(m: Message, mem: Memory)
    requires |m.payload| <= 250
    ensures |Body(m)| == 3 + |m.payload|
    ensures var decoded, n := Body(m) + mem[|Body(m)|..], |m.payload|;
            && decoded[0] == m.id && decoded[1] == n && decoded[2 + n] == Checksum(Covered(m))
            && decoded[..2 + n] == Covered(m) && decoded[2..2 + n] == m.payload
  {
    hide Xor;
  }

  lemma BodyShape(m: Message, mem: Memory)
    requires |m.payload| <= MAX_PAYLOAD_SIZE
    ensures |Body(m)| == 3 + |m.payload|
    ensures ParseBody(Body(m), mem) == (0, m)
  {
    hide Xor;
    DecodedShape(m, mem);
  }

  /** What parse_message copies has the length its length byte says, whatever was decoded: it stays inside the
      caller's 132-byte payload buffer if and only if that byte is at most 132. */
  lemma PayloadFits(d: seq<byte>, mem: Memory)
    requires 3 <= |d| <= 3 + MAX_PAYLOAD_SIZE
    ensures |ParseBody(d, mem).1.payload| <= MAX_PAYLOAD_SIZE <==> d[1] <= MAX_PAYLOAD_SIZE
  {
    hide Checksum;
  }

  /** The tests on the encoded and the decoded length do not imply that: with 135 decoded bytes a length byte
      of 133 passes them, and the checksum is looked for one byte behind what was decoded. */
  lemma PayloadNeedNotFit(m: Message, mem: Memory, prev: Message)
    requires |m.payload| == MAX_PAYLOAD_SIZE + 1 && mem[3 + MAX_PAYLOAD_SIZE] == Checksum(Covered(m))
    ensures |Encode(Covered(m))| <= 1 + 1 + MAX_PAYLOAD_SIZE + 1 + 1
    ensures ParseEncoded(Encode(Covered(m)), mem, prev) == (0, m)
  {
    hide Checksum, Encode;
    var d := Covered(m);
    NoLongRun(d);
    EncodeLength(d);
    HostRoundTrip(d);
    var decoded := d + mem[|d|..];
    assert decoded[1] == 133 && decoded[..135] == d && decoded[2..135] == m.payload;
  }

  lemma NoLongRun(src: seq<byte>)
    requires |src| < 254
    ensures !HasLongRun(src) && FullBlocks(src, 0) == 0
  {
    hide Xor;
    FullBlocksIffLongRun(src);
  }

  lemma FrameLength(m: Message)
    requires |m.payload| <= 250
    ensures |Encode(Body(m))| == |m.payload| + 4
  {
    hide Xor;
    EncodeLength(Body(m));
    NoLongRun(Body(m));
  }

  lemma {:induction false} BodyBalanced(m: Message, j: nat)
    requires j < 8
    ensures OnCount(Body(m), j) % 2 == 0
  {
    hide Xor, OnIn, Checksum;
    ChecksumParity(Covered(m), j);
    assert Body(m)[..|Body(m)| - 1] == Covered(m);
  }

  /** A frame on the wire: a zero, the number of bytes behind it, and no other zero. Decoded, those bytes are the
      id, the payload's length, the payload, and one byte that makes every column of bits even. It is exactly
      as long as calc_max_cobs_msg_length says. */
  lemma FrameLayout(m: Message)
    requires |m.payload| <= 250
    ensures var frame, n := FrameOf(m), |m.payload|;
            |frame| == n + 6 == MaxCobsMsgLength(n) && frame[0] == 0 && frame[1] == n + 4 && 0 !in frame[1..]
    ensures var d, n := Decode(FrameOf(m)[2..], false), |m.payload|;
            && d.Some? && |d.value| == n + 3 && d.value[0] == m.id && d.value[1] == n && d.value[2..2 + n] == m.payload
            && forall j: nat :: j < 8 ==> OnCount(d.value, j) % 2 == 0
  {
    hide Xor, OnIn, Checksum, Encode, Decode, OnCount;
    FrameLength(m);
    EncodeNoZero(Body(m));
    DeviceRoundTrip(Body(m));
    assert FrameOf(m)[2..] == Encode(Body(m));
    forall j: nat | j < 8 ensures OnCount(Body(m), j) % 2 == 0 { BodyBalanced(m, j); }
  }

  lemma ParseFrame(m: Message, mem: Memory, prev: Message)
    requires |m.payload| <= MAX_PAYLOAD_SIZE
    ensures ParseEncoded(Encode(Body(m)), mem, prev) == (0, m)
  {
    hide Xor;
    BodyShape(m, mem);
    NoLongRun(Body(m));
    HostRoundTrip(Body(m));
  }

  /** parse_message finds the length wrong exactly if a block is cut short or the encoded bytes, which are one more
      than the decoded, are fewer than 4 or more than 136. */
  lemma ParseRefusesExact(src: seq<byte>, mem: Memory, prev: Message)
    ensures ParseEncoded(src, mem, prev).0 == 3 <==> Decode(src, true).None? || |src| < 4 || |src| > 136
    ensures ParseEncoded(src, mem, prev).0 == 3 ==> ParseEncoded(src, mem, prev).1 == prev
  {
    hide Checksum;
    if src != [] && Decode(src, true).Some? { HostDecodedLength(src); }
  }

  lemma {:induction false} SkipNoise(noise: seq<byte>, s: seq<byte>)
    requires 0 !in noise
    ensures AfterDelimiter(noise + ([0] + s)) == Some(s)
  {
    hide Xor;
    if noise == [] {
      assert noise + ([0] + s) == [0] + s;
    } else {
      SkipNoise(noise[1..], s);
      assert (noise + ([0] + s))[1..] == noise[1..] + ([0] + s);
    }
  }

  /** A verified device's frame is received behind any zero-free noise, whatever memory holds. */
  lemma ReceiveFrame(noise: seq<byte>, m: Message, rest: seq<byte>, mem: Memory, prev: Message)
    requires 0 !in noise && |m.payload| <= MAX_PAYLOAD_SIZE
    ensures Receive(noise + FrameOf(m) + rest, true, mem, prev) == Receipt(0, m, rest)
  {
    hide Xor;
    var e := Encode(Body(m));
    FrameLength(m);
    var r := [|e|] + e + rest;
    SkipNoise(noise, r);
    assert noise + FrameOf(m) + rest == noise + ([0] + r);
    assert r[1..1 + |e|] == e && r[1 + |e|..] == rest;
    ParseFrame(m, mem, prev);
  }

  /** Longer payloads are never received: their length byte is out of range. */
  lemma OversizeRejected(noise: seq<byte>, m: Message, rest: seq<byte>, mem: Memory, prev: Message)
    requires 0 !in noise && MAX_PAYLOAD_SIZE < |m.payload| <= 250
    ensures Receive(noise + FrameOf(m) + rest, true, mem, prev) == Receipt(1, prev, Encode(Body(m)) + rest)
  {
    hide Xor;
    var e := Encode(Body(m));
    FrameLength(m);
    var r := [|e|] + e + rest;
    SkipNoise(noise, r);
    assert noise + FrameOf(m) + rest == noise + ([0] + r);
    assert r[1..] == e + rest;
  }

  /** A length byte that no frame has is refused at once, and nothing behind it is consumed. */
  lemma LengthRefused(noise: seq<byte>, b: byte, rest: seq<byte>, mem: Memory, prev: Message)
    requires 0 !in noise && (b < 4 || b > 136)
    ensures Receive(noise + [0, b] + rest, true, mem, prev) == Receipt(1, prev, rest)
    ensures Receive([0, b] + rest, false, mem, prev) == Receipt(1, prev, rest)
  {
    hide AfterDelimiter, ParseEncoded;
    var r := [b] + rest;
    SkipNoise(noise, r);
    assert noise + [0, b] + rest == noise + ([0] + r);
    assert ([0, b] + rest)[1..] == r && r[1..] == rest;
  }

  /** Before a device is verified the first byte must be the delimiter: its first frame is received if nothing
      precedes it, any other byte is consumed and refused, and silence is a time-out. */
  lemma ReceiveUnverified(m: Message, rest: seq<byte>, s: seq<byte>, mem: Memory, prev: Message)
    requires |m.payload| <= MAX_PAYLOAD_SIZE
    ensures Receive(FrameOf(m) + rest, false, mem, prev) == Receipt(0, m, rest)
    ensures s != [] && s[0] != 0 ==> Receive(s, false, mem, prev) == Receipt(1, prev, s[1..])
    ensures Receive([], false, mem, prev) == Receipt(3, prev, [])
  {
    hide Xor, Encode, Checksum, ParseEncoded;
    var e := Encode(Body(m));
    FrameLength(m);
    var r := [|e|] + e + rest;
    assert FrameOf(m) + rest == [0] + r;
    assert ([0] + r)[1..] == r && r[1..1 + |e|] == e && r[1 + |e|..] == rest;
    ParseFrame(m, mem, prev);
  }

  /** A frame cut anywhere is given up: 1, the old message, and nothing is left to read. */
  lemma CutFrame(noise: seq<byte>, m: Message, k: nat, mem: Memory, prev: Message)
    requires 0 !in noise && |m.payload| <= MAX_PAYLOAD_SIZE && k < |FrameOf(m)|
    ensures Receive(noise + FrameOf(m)[..k], true, mem, prev) == Receipt(1, prev, [])
  {
    hide Xor, Encode, Checksum, ParseEncoded, AfterDelimiter;
    var e := Encode(Body(m));
    FrameLength(m);
    if k == 0 {
      NoiseOnly(noise);
      assert noise + FrameOf(m)[..k] == noise;
    } else {
      var r := FrameOf(m)[1..k];
      SkipNoise(noise, r);
      assert FrameOf(m)[..k] == [0] + r;
      assert FrameOf(m)[1] == |e|;
      if k > 1 { assert r[0] == |e| && |r| - 1 < |e|; }
    }
  }

  /** A frame whose body has one byte changed, the length byte aside, is consumed and refused with 2; the caller's
      message holds the changed bytes. */
  lemma CorruptFrame(noise: seq<byte>, m: Message, k: nat, v: byte, rest: seq<byte>, mem: Memory, prev: Message)
    requires 0 !in noise && |m.payload| <= MAX_PAYLOAD_SIZE
    requires k < |Body(m)| && k != 1 && v != Body(m)[k]
    ensures var d, e := Body(m)[k := v], Encode(Body(m)[k := v]);
            && |e| < 256
            && Receive(noise + [0, |e|] + e + rest, true, mem, prev) == Receipt(2, Message(d[0], d[2..2 + |m.payload|]), rest)
  {
    hide Xor, Encode, Checksum, AfterDelimiter, Decode, ParseBody;
    var d := Body(m)[k := v];
    var e := Encode(d);
    FrameLength(m);
    EncodeLength(d);
    NoLongRun(d);
    HostRoundTrip(d);
    var r := [|e|] + e + rest;
    SkipNoise(noise, r);
    assert noise + [0, |e|] + e + rest == noise + ([0] + r);
    assert r[1..1 + |e|] == e && r[1 + |e|..] == rest;
    CorruptionDetected(m, k, v, mem);
  }

  lemma {:induction false} AfterDelimiterShorter(s: seq<byte>)
    ensures AfterDelimiter(s).Some? ==> |AfterDelimiter(s).value| < |s|
  {
    hide Xor;
    if s != [] { AfterDelimiterShorter(s[1..]); }
  }

  /** Calling receive_message until the stream ends and keeping the messages of the successful calls, as
      the receiver thread does. The memory each call meets is arbitrary. */
  function ReceiveAll(s: seq<byte>, mem: nat -> Memory, prev: Message): (r: seq<Message>)
    decreases |s|
  {
    if s == [] then []
    else
      var o := Receive(s, true, mem(|s|), prev);
      AfterDelimiterShorter(s);
      (if o.ret == 0 then [o.msg] else []) + ReceiveAll(o.rest, mem, o.msg)
  }

  /** Frames with noise in front of each and behind the last. */
  function NoisyStream(noise: seq<seq<byte>>, msgs: seq<Message>): (r: seq<byte>)
    requires |noise| == |msgs| + 1
  {
    if msgs == [] then noise[0] else noise[0] + FrameOf(msgs[0]) + NoisyStream(noise[1..], msgs[1..])
  }

  lemma {:induction false} NoiseOnly(s: seq<byte>)
    requires 0 !in s
    ensures AfterDelimiter(s) == None
  {
    hide Xor;
    if s != [] { NoiseOnly(s[1..]); }
  }

  /** Every stream of frames with zero-free noise between them is received as exactly those messages, in
      order. */
  lemma {:induction false} ReceiveStream(noise: seq<seq<byte>>, msgs: seq<Message>, mem: nat -> Memory, prev: Message)
    requires |noise| == |msgs| + 1
    requires forall n :: n in noise ==> 0 !in n
    requires forall m :: m in msgs ==> |m.payload| <= MAX_PAYLOAD_SIZE
    ensures ReceiveAll(NoisyStream(noise, msgs), mem, prev) == msgs
    decreases |msgs|
  {
    hide Xor;
    var s := NoisyStream(noise, msgs);
    if msgs == [] {
      NoiseOnly(noise[0]);
    } else {
      var rest := NoisyStream(noise[1..], msgs[1..]);
      ReceiveFrame(noise[0], msgs[0], rest, mem(|s|), prev);
      ReceiveStream(noise[1..], msgs[1..], mem, msgs[0]);
      assert [msgs[0]] + msgs[1..] == msgs;
    }
  }

  lemma {:induction false} ReceiveAllStep(done: seq<Message>, s: seq<byte>, mem: nat -> Memory, prev: Message)
    requires s != []
    ensures var o := Receive(s, true, mem(|s|), prev);
            && |o.rest| < |s|
            && done + ReceiveAll(s, mem, prev) == done + (if o.ret == 0 then [o.msg] else []) + ReceiveAll(o.rest, mem, o.msg)
  {
    hide Xor, ParseEncoded, AfterDelimiter;
    AfterDelimiterShorter(s);
    var o := Receive(s, true, mem(|s|), prev);
    var first, others := if o.ret == 0 then [o.msg] else [], ReceiveAll(o.rest, mem, o.msg);
    assert done + (first + others) == done + first + others;
  }

  /** The receiver thread's loop around receive_message, until the descriptor reports its end. */
  method ReceiverLoop(c: NetStream.Channel, mem: nat -> Memory, past: byte, first: Message) returns (msgs: seq<Message>)
    modifies c`input, c`calls
    ensures msgs == ReceiveAll(old(c.input), mem, first) && c.input == []
  {
    hide Xor;
    msgs := [];
    var msg := first;
    ghost var start := c.input;
    while |c.input| > 0
      invariant msgs + ReceiveAll(c.input, mem, msg) == ReceiveAll(start, mem, first)
      decreases |c.input|
    {
      hide Receive, ReceiveAll;
      ReceiveAllStep(msgs, c.input, mem, msg);
      var ret;
      ret, msg := ReceiveMessage(c, true, msg, mem(|c.input|), past);
      msgs := msgs + if ret == 0 then [msg] else [];
    }
    assert msgs + [] == msgs;
  }

  /** A body with one byte changed, the length byte aside, is rejected for its checksum. */
  lemma CorruptionDetected(m: Message, k: nat, v: byte, mem: Memory)
    requires |m.payload| <= MAX_PAYLOAD_SIZE
    requires k < |Body(m)| && k != 1 && v != Body(m)[k]
    ensures ParseBody(Body(m)[k := v], mem) == (1, Message(Body(m)[k := v][0], Body(m)[k := v][2..2 + |m.payload|]))
  {
    hide Xor;
    var n := |m.payload|;
    var d := Body(m)[k := v];
    var decoded := d + mem[|d|..];
    assert decoded[1] == n;
    if k < 2 + n {
      assert decoded[..2 + n] == Covered(m)[k := v];
      ChecksumDetects(Covered(m), k, v);
    } else {
      assert decoded[..2 + n] == Covered(m);
    }
  }

  // ------------------------------------------------------------------ device: receive

  datatype Status = SUCCESS | PROCESS_ERROR | MALFORMED_DATA | NO_DATA

  datatype DeviceReceipt = DeviceReceipt(status: Status, msg: Message, rest: seq<byte>)

  /** Stream::readBytesUntil(0, buf, n): what is stored in `buf`, and what is left. A terminating zero is
      consumed and not stored. */
  function ReadBytesUntil(s: seq<byte>, n: nat): (r: (seq<byte>, seq<byte>))
    decreases n
  {
    if n == 0 || s == [] then ([], s)
    else if s[0] == 0 then ([], s[1..])
    else var r := ReadBytesUntil(s[1..], n - 1); ([s[0]] + r.0, r.1)
  }

  /** read_message with `s` available on the serial port. The decoder's verdict is ignored: what it stored
      and what memory held behind it is checked against its own length byte and checksum. */
  function DeviceReceive(s: seq<byte>, mem: Memory, past: byte, prev: Message): (o: DeviceReceipt)
  {
    if s == [] then DeviceReceipt(NO_DATA, prev, [])
    else
      var r := AfterDelimiter(s);
      if r.None? then DeviceReceipt(MALFORMED_DATA, prev, [])
      else if r.value == [] || r.value[0] == 0 then DeviceReceipt(MALFORMED_DATA, prev, r.value)
      else
        var b := ReadBytesUntil(r.value[1..], r.value[0]);
        if |b.0| != r.value[0] then DeviceReceipt(PROCESS_ERROR, prev, b.1)
        else
          var stored := Stored(b.0, past, false);
          StoredBytes(b.0, past, false);
          var data := stored + mem[|stored|..];
          var n := data[1];
          if Checksum(data[..2 + n]) != data[2 + n] then DeviceReceipt(MALFORMED_DATA, prev, b.1)
          else DeviceReceipt(SUCCESS, Message(data[0], data[2..2 + n]), b.1)
  }

  /** read_message */
  method DeviceReadMessage(avail: seq<byte>, mem: Memory, past: byte, prev: Message)
    returns (status: Status, msg: Message, rest: seq<byte>)
    ensures DeviceReceive(avail, mem, past, prev) == DeviceReceipt(status, msg, rest)
  {
    hide Xor;
    msg, rest := prev, avail;
    if |rest| == 0 {
      return NO_DATA, msg, rest;
    }
    var last: int := -1;
    while |rest| > 0
      invariant last != 0 && AfterDelimiter(rest) == AfterDelimiter(avail)
    {
      last, rest := rest[0], rest[1..];
      if last == 0 {
        break;
      }
    }
    if last != 0 {
      return MALFORMED_DATA, msg, rest;
    }
    if |rest| == 0 || rest[0] == 0 {
      return MALFORMED_DATA, msg, rest;
    }
    var cobsLen: int := rest[0];
    var got := ReadBytesUntil(rest[1..], cobsLen);
    rest := got.1;
    if cobsLen != |got.0| {
      return PROCESS_ERROR, msg, rest;
    }
    var data := new byte[258](i requires 0 <= i < 258 => mem[i]);
    assert data[..] == mem;
    var _ := CobsDecode(data, got.0, past, false);
    var n: int := data[1];
    var expected := ComputeChecksum(data[..], 2 + n);
    if data[2 + n] != expected {
      return MALFORMED_DATA, msg, rest;
    }
    return SUCCESS, Message(data[0], data[2..2 + n]), rest;
  }

  lemma {:induction false} ReadZeroFree(b: seq<byte>, rest: seq<byte>)
    requires 0 !in b
    ensures ReadBytesUntil(b + rest, |b|) == (b, rest)
  {
    hide Xor;
    if b == [] {
      assert b + rest == rest;
    } else {
      assert (b + rest)[1..] == b[1..] + rest;
      ReadZeroFree(b[1..], rest);
      assert [b[0]] + b[1..] == b;
    }
  }

  /** The device receives every frame of up to 250 payload bytes, behind any zero-free noise: unlike the host
      it sets no limit of its own, so its 132-byte buffer holds what the frame carries exactly for payloads of
      up to 132 bytes. */
  lemma DeviceReceiveFrame(noise: seq<byte>, m: Message, rest: seq<byte>, mem: Memory, past: byte, prev: Message)
    requires 0 !in noise && |m.payload| <= 250
    ensures DeviceReceive(noise + FrameOf(m) + rest, mem, past, prev) == DeviceReceipt(SUCCESS, m, rest)
  {
    hide Xor;
    var e := Encode(Body(m));
    FrameLength(m);
    var r := [|e|] + e + rest;
    SkipNoise(noise, r);
    assert noise + FrameOf(m) + rest == noise + ([0] + r);
    assert r[1..] == e + rest;
    EncodeNoZero(Body(m));
    ReadZeroFree(e, rest);
    DeviceRoundTrip(Body(m));
    StoredBytes(e, past, false);
    DecodedShape(m, mem);
  }

  lemma {:induction false} ReadShort(b: seq<byte>, n: nat)
    requires 0 !in b && |b| < n
    ensures ReadBytesUntil(b, n) == (b, [])
  {
    if b != [] {
      ReadShort(b[1..], n - 1);
      assert [b[0]] + b[1..] == b;
    }
  }

  /** The device gives up a frame cut anywhere: nothing available is no data, a missing delimiter or length
      malformed, and a short body an error. The old message stays and nothing is left to read. */
  lemma DeviceCutFrame(noise: seq<byte>, m: Message, k: nat, mem: Memory, past: byte, prev: Message)
    requires 0 !in noise && |m.payload| <= 250 && k < |FrameOf(m)|
    ensures DeviceReceive(noise + FrameOf(m)[..k], mem, past, prev) ==
            DeviceReceipt(if k == 0 && noise == [] then NO_DATA else if k < 2 then MALFORMED_DATA else PROCESS_ERROR, prev, [])
  {
    hide Xor, Encode, Checksum, AfterDelimiter, ReadBytesUntil;
    var e := Encode(Body(m));
    FrameLength(m);
    EncodeNoZero(Body(m));
    if k == 0 {
      NoiseOnly(noise);
      assert noise + FrameOf(m)[..k] == noise;
    } else {
      var r := FrameOf(m)[1..k];
      SkipNoise(noise, r);
      assert FrameOf(m)[..k] == [0] + r;
      if k > 1 {
        assert r[0] == |e| && r[1..] == e[..k - 2];
        ReadShort(e[..k - 2], |e|);
      }
    }
  }

  /** A delimiter right behind a delimiter is malformed, and is left there as the next frame's. */
  lemma DeviceNoLength(noise: seq<byte>, rest: seq<byte>, mem: Memory, past: byte, prev: Message)
    requires 0 !in noise
    ensures DeviceReceive(noise + [0, 0] + rest, mem, past, prev) == DeviceReceipt(MALFORMED_DATA, prev, [0] + rest)
  {
    hide AfterDelimiter, Checksum, ReadBytesUntil;
    SkipNoise(noise, [0] + rest);
    assert noise + [0, 0] + rest == noise + ([0] + ([0] + rest));
  }

  /** The device refuses a frame whose body has one byte changed, the length byte aside. */
  lemma DeviceCorruptFrame(noise: seq<byte>, m: Message, k: nat, v: byte, rest: seq<byte>, mem: Memory, past: byte, prev: Message)
    requires 0 !in noise && |m.payload| <= 250
    requires k < |Body(m)| && k != 1 && v != Body(m)[k]
    ensures var e := Encode(Body(m)[k := v]);
            |e| < 256 && DeviceReceive(noise + [0, |e|] + e + rest, mem, past, prev) == DeviceReceipt(MALFORMED_DATA, prev, rest)
  {
    hide Xor, Encode, Checksum, AfterDelimiter, ReadBytesUntil, Decode, Stored;
    var d := Body(m)[k := v];
    var e, n := Encode(d), |m.payload|;
    EncodeLength(d);
    NoLongRun(d);
    EncodeNoZero(d);
    var r := [|e|] + e + rest;
    SkipNoise(noise, r);
    assert noise + [0, |e|] + e + rest == noise + ([0] + r);
    assert r[1..] == e + rest;
    ReadZeroFree(e, rest);
    DeviceRoundTrip(d);
    StoredBytes(e, past, false);
    var data := d + mem[|d|..];
    assert data[1] == n;
    if k < 2 + n {
      assert data[..2 + n] == Covered(m)[k := v];
      ChecksumDetects(Covered(m), k, v);
    } else {
      assert data[..2 + n] == Covered(m);
    }
  }

  // ------------------------------------------------------------------ device: send

  const ACKNOWLEDGEMENT: byte := 2

  /** Messenger::append_payload */
  function Append(payload: seq<byte>, data: seq<byte>): (r: (bool, seq<byte>))
  {
    if |payload| + |data| > MAX_PAYLOAD_SIZE then (false, payload) else (true, payload + data)
  }

  /** send_message's own serialisation: the buffer has room for one byte of overhead, which is enough
      because no message reaches 254 bytes. */
  method DeviceSerialize(msg: Message) returns (sent: seq<byte>)
    requires |msg.payload| <= MAX_PAYLOAD_SIZE
    ensures sent == FrameOf(msg)
  {
    hide Encode, Checksum, Xor;
    var n := |msg.payload|;
    var covered := [msg.id, n] + msg.payload;
    assert covered == Covered(msg);
    var chk := ComputeChecksum(covered, 2 + n);
    assert covered[..2 + n] == covered;
    var cobsBuf := new byte[1 + 1 + (n + 3) + 1];
    cobsBuf[0] := 0;
    var cobsLen := CobsEncode(cobsBuf, 2, covered + [chk]);
    assert cobsBuf[0] == cobsBuf[..2][0];
    FrameLength(msg);
    cobsBuf[1] := cobsLen;
    sent := cobsBuf[..2 + cobsLen];
    assert sent == cobsBuf[..2] + cobsBuf[2..2 + cobsLen];
  }

  lemma FrameNotEmpty(m: Message)
    ensures FrameOf(m) != []
  {
  }

  /** send_message: `devId` is the type, the year and the eight bytes of the unique id. An
      acknowledgement carries them behind whatever the message already held. `sent` is what is handed to the
      serial port, which reports how many bytes it took. */
  method DeviceSendMessage(id: byte, payload: seq<byte>, devId: seq<byte>, serialWrite: nat -> nat) returns (status: Status, sent: seq<byte>)
    requires |payload| <= MAX_PAYLOAD_SIZE && |devId| == 10
    ensures id != ACKNOWLEDGEMENT ==> sent == FrameOf(Message(id, payload))
    ensures id == ACKNOWLEDGEMENT && |payload| + 10 <= MAX_PAYLOAD_SIZE ==> sent == FrameOf(Message(id, payload + devId))
    ensures id == ACKNOWLEDGEMENT && |payload| + 10 > MAX_PAYLOAD_SIZE ==> sent == []
    ensures status == if sent != [] && serialWrite(|sent|) == |sent| then SUCCESS else PROCESS_ERROR
  {
    hide FrameOf, Xor;
    var p := payload;
    if id == ACKNOWLEDGEMENT {
      var a1 := Append(p, devId[..1]);
      var a2 := Append(a1.1, devId[1..2]);
      var a3 := Append(a2.1, devId[2..]);
      if !a1.0 || !a2.0 || !a3.0 {
        return PROCESS_ERROR, [];
      }
      p := a3.1;
      assert p == payload + devId;
    }
    sent := DeviceSerialize(Message(id, p));
    FrameNotEmpty(Message(id, p));
    status := if serialWrite(|sent|) == |sent| then SUCCESS else PROCESS_ERROR;
  }
}
