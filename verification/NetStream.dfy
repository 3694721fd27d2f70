/** Length-prefixed messages over a byte stream whose system calls may move fewer bytes than asked for
    (runtime_util/runtime_util.c: readn, writen; net_handler/net_util.c: make_buf, parse_msg). */
module NetStream {
  import opened Basics

  /** A connected file descriptor. `input` is what the peer has sent and has not been read yet, after
      which the peer has closed; `output` is what has been written. `pace` is the environment's choice
      of how many bytes each system call moves. */
  class Channel {
    var input: seq<byte>
    var output: seq<byte>
    var calls: nat
    const pace: nat -> nat

    constructor (input: seq<byte>, pace: nat -> nat)
      ensures this.input == input && output == []
    {
      this.input, this.pace, output, calls := input, pace, [], 0;
    }

    /** How many of `most` bytes the next system call moves: at least one. */
    method NextChunk(most: nat) returns (k: nat)
      requires most > 0
      modifies this`calls
      ensures 1 <= k <= most
    {
      var want := pace(calls);
      calls := calls + 1;
      k := if want < 1 then 1 else if want > most then most else want;
    }

    /** read(2): some of the available bytes, none exactly at end of file. */
    method Read(n: nat) returns (got: seq<byte>)
      requires n > 0
      modifies this`input, this`calls
      ensures got + input == old(input) && |got| <= n
      ensures old(input) != [] ==> got != []
    {
      if input == [] { return []; }
      var k := NextChunk(if n < |input| then n else |input|);
      got, input := input[..k], input[k..];
    }

    /** write(2): some of the bytes offered. */
    method Write(buf: seq<byte>) returns (k: nat)
      requires buf != []
      modifies this`output, this`calls
      ensures 1 <= k <= |buf| && output == old(output) + buf[..k]
    {
      k := NextChunk(|buf|);
      output := output + buf[..k];
    }

    /** readn: `got` is what was stored in the caller's buffer. */
    method ReadN(n: nat) returns (ret: int, got: seq<byte>)
      requires n < 0x10000
      modifies this`input, this`calls
      ensures n <= |old(input)| ==> ret == n && got == old(input)[..n] && input == old(input)[n..]
      ensures n > |old(input)| ==> ret == 0 && got == old(input) && input == []
    {
      var remain := n;
      got := [];
      while remain > 0
        invariant 0 <= remain <= n && |got| == n - remain
        invariant got + input == old(input)
      {
        var part := Read(remain);
        ghost var before := got;
        if part == [] {
          return 0, got;
        }
        remain, got := remain - |part|, got + part;
        assert before + (part + input) == got + input;
      }
      ret := n - remain;
    }

    /** writen */
    method WriteN(buf: seq<byte>) returns (ret: int)
      requires |buf| < 0x10000
      modifies this`output, this`calls
      ensures ret == |buf| && output == old(output) + buf
    {
      var remain := |buf|;
      while remain > 0
        invariant 0 <= remain <= |buf|
        invariant output == old(output) + buf[..|buf| - remain]
      {
        var curr := |buf| - remain;
        var k := Write(buf[curr..]);
        assert buf[..curr] + buf[curr..][..k] == buf[..curr + k];
        remain := remain - k;
      }
      assert buf[..|buf|] == buf;
      ret := |buf|;
    }

    /** parse_msg. `body` is what was stored in the buffer it allocates: shorter than `len` when the peer
        closed inside the body, which the caller cannot tell from a complete message. */
    method ParseMsg() returns (ret: int, msg: Received)
      modifies this`input, this`calls
      ensures ret == (if |old(input)| >= 3 then 1 else 0)
      ensures ret == 1 ==> Parse(old(input)) == Some((msg, input))
      ensures ret != 1 ==> Parse(old(input)) == None && input == []
    {
      msg := Received(0, 0, []);
      var typ, lenPb, body;
      ret, typ := ReadN(1);
      if ret <= 0 { return ret, msg; }
      ret, lenPb := ReadN(2);
      if ret <= 0 { return ret, msg; }
      var len := Word16(lenPb[0], lenPb[1]);
      ghost var rest := old(input)[3..];
      assert old(input)[1..][2..] == rest && lenPb == old(input)[1..3];
      ret, body := ReadN(len);
      assert len <= |rest| ==> rest[..len] == old(input)[3..3 + len] && rest[len..] == old(input)[3 + len..];
      if ret < 0 { return ret, msg; }
      return 1, Received(typ[0], len, body);
    }

    /** Frame `msg` with make_buf, pack its body behind the header and write it, as every sender does. */
    method SendMsg(msg: NetMsg)
      requires |msg.body| <= 65532
      modifies this`output, this`calls
      ensures output == old(output) + Wire(msg)
    {
      var buf := MakeBuf(msg.typ, |msg.body|);
      for i := 0 to |msg.body|
        invariant fresh(buf) && buf.Length == |msg.body| + 3 && output == old(output)
        invariant buf[..3] == Header(msg)
        invariant buf[3..3 + i] == msg.body[..i]
      {
        buf[3 + i] := msg.body[i];
        assert buf[3..3 + i + 1] == buf[3..3 + i] + [msg.body[i]];
      }
      assert buf[..] == buf[..3] + buf[3..3 + |msg.body|];
      assert msg.body[..|msg.body|] == msg.body;
      var ret := WriteN(buf[..]);
    }

    method SendAll(msgs: seq<NetMsg>)
      requires forall m :: m in msgs ==> |m.body| <= 65532
      modifies this`output, this`calls
      ensures output == old(output) + WireAll(msgs)
    {
      for i := 0 to |msgs|
        invariant output == old(output) + WireAll(msgs[..i])
      {
        SendMsg(msgs[i]);
        WireAllSnoc(msgs, i);
        assert old(output) + WireAll(msgs[..i]) + Wire(msgs[i]) == old(output) + (WireAll(msgs[..i]) + Wire(msgs[i]));
      }
      assert msgs[..|msgs|] == msgs;
    }

    /** Call parse_msg until it reports the end of the stream. */
    method ReceiveAll() returns (msgs: seq<Received>)
      modifies this`input, this`calls
      ensures msgs == ParseAll(old(input)) && input == []
    {
      msgs := [];
      ghost var start := input;
      while true
        invariant msgs + ParseAll(input) == ParseAll(start)
        decreases |input|
      {
        ghost var before := input;
        var ret, msg := ParseMsg();
        if ret <= 0 {
          assert msgs + [] == msgs;
          return;
        }
        assert msgs + ([msg] + ParseAll(input)) == (msgs + [msg]) + ParseAll(input);
        msgs := msgs + [msg];
      }
    }
  }

  datatype NetMsg = NetMsg(typ: byte, body: seq<byte>)

  /** What parse_msg hands to its caller. */
  datatype Received = Received(typ: byte, len: nat, body: seq<byte>)

  function Header(msg: NetMsg): (r: seq<byte>)
    requires |msg.body| < 0x10000
  {
    [msg.typ] + Bytes16(|msg.body|)
  }

  function Wire(msg: NetMsg): (r: seq<byte>)
    requires |msg.body| < 0x10000
  {
    Header(msg) + msg.body
  }

  function WireAll(msgs: seq<NetMsg>): (r: seq<byte>)
    requires forall m :: m in msgs ==> |m.body| < 0x10000
  {
    if msgs == [] then [] else Wire(msgs[0]) + WireAll(msgs[1..])
  }

  lemma {:induction false} WireAllSnoc(msgs: seq<NetMsg>, i: nat)
    requires i < |msgs|
    requires forall m :: m in msgs ==> |m.body| < 0x10000
    ensures WireAll(msgs[..i + 1]) == WireAll(msgs[..i]) + Wire(msgs[i])
    decreases i
  {
    if i == 0 {
      assert msgs[..1] == [msgs[0]] && Wire(msgs[0]) + [] == [] + Wire(msgs[0]);
    } else {
      assert msgs[1..][..i] == msgs[..i + 1][1..] && msgs[1..][..i - 1] == msgs[..i][1..];
      WireAllSnoc(msgs[1..], i - 1);
      assert Wire(msgs[0]) + (WireAll(msgs[..i][1..]) + Wire(msgs[i])) == Wire(msgs[0]) + WireAll(msgs[..i][1..]) + Wire(msgs[i]);
    }
  }

  /** The effect of one parse_msg on the stream `s`: the message and what is left. */
  function Parse(s: seq<byte>): (r: Option<(Received, seq<byte>)>)
  {
    if |s| < 3 then None
    else
      var len := Word16(s[1], s[2]);
      if len <= |s| - 3 then Some((Received(s[0], len, s[3..3 + len]), s[3 + len..]))
      else Some((Received(s[0], len, s[3..]), []))
  }

  function ParseAll(s: seq<byte>): (r: seq<Received>)
    decreases |s|
  {
    var p := Parse(s);
    if p.None? then [] else [p.value.0] + ParseAll(p.value.1)
  }

  /** make_buf */
  method MakeBuf(msgType: byte, lenPb: nat) returns (sendBuf: array<byte>)
    requires lenPb < 0x10000
    ensures fresh(sendBuf) && sendBuf.Length == lenPb + 3
    ensures sendBuf[..3] == [msgType] + Bytes16(lenPb)
  {
    sendBuf := new byte[lenPb + 3];
    sendBuf[0] := msgType;
    sendBuf[1] := lenPb % 256;
    sendBuf[2] := lenPb / 256;
  }

  function Deliver(m: NetMsg): (r: Received) { Received(m.typ, |m.body|, m.body) }

  function DeliverAll(msgs: seq<NetMsg>): (r: seq<Received>)
    ensures |r| == |msgs| && forall i :: 0 <= i < |msgs| ==> r[i] == Deliver(msgs[i])
  {
    if msgs == [] then [] else [Deliver(msgs[0])] + DeliverAll(msgs[1..])
  }

  lemma ParseWire(m: NetMsg, rest: seq<byte>)
    requires |m.body| < 0x10000
    ensures Parse(Wire(m) + rest) == Some((Deliver(m), rest))
  {
    var s := Wire(m) + rest;
    assert s[1..3] == [|m.body| % 256, |m.body| / 256];
    assert s[3..3 + |m.body|] == m.body && s[3 + |m.body|..] == rest;
  }

  lemma {:induction false} ParseAllPrefix(msgs: seq<NetMsg>, rest: seq<byte>)
    requires forall m :: m in msgs ==> |m.body| < 0x10000
    ensures ParseAll(WireAll(msgs) + rest) == DeliverAll(msgs) + ParseAll(rest)
  {
    if msgs == [] {
      assert WireAll(msgs) + rest == rest && DeliverAll(msgs) == [];
    } else {
      var tail := WireAll(msgs[1..]) + rest;
      assert WireAll(msgs) + rest == Wire(msgs[0]) + tail;
      ParseWire(msgs[0], tail);
      ParseAllPrefix(msgs[1..], rest);
    }
  }

  /** Parsing a concatenation of frames gives back exactly the messages, empty bodies included. */
  lemma ParseAllWire(msgs: seq<NetMsg>)
    requires forall m :: m in msgs ==> |m.body| < 0x10000
    ensures ParseAll(WireAll(msgs)) == DeliverAll(msgs)
  {
    ParseAllPrefix(msgs, []);
    assert WireAll(msgs) + [] == WireAll(msgs) && DeliverAll(msgs) + [] == DeliverAll(msgs);
  }

  lemma {:induction false} ParseCut(m: NetMsg, cut: nat)
    requires |m.body| < 0x10000 && cut < |Wire(m)|
    ensures ParseAll(Wire(m)[..cut]) == if cut < 3 then [] else [Received(m.typ, |m.body|, m.body[..cut - 3])]
  {
    var s := Wire(m)[..cut];
    if cut >= 3 {
      assert s[0] == m.typ && s[1..3] == [|m.body| % 256, |m.body| / 256];
      assert s[3..] == m.body[..cut - 3];
    }
  }

  /** A stream cut inside its last frame: the messages before it are delivered intact, a cut in the header
      delivers nothing more, and a cut in the body delivers one more message, with the announced length
      but only the bytes that arrived. */
  lemma ParseTruncated(msgs: seq<NetMsg>, m: NetMsg, cut: nat)
    requires forall m :: m in msgs ==> |m.body| < 0x10000
    requires |m.body| < 0x10000 && cut < |Wire(m)|
    ensures ParseAll(WireAll(msgs) + Wire(m)[..cut]) ==
            DeliverAll(msgs) + (if cut < 3 then [] else [Received(m.typ, |m.body|, m.body[..cut - 3])])
  {
    hide ParseAll;
    ParseAllPrefix(msgs, Wire(m)[..cut]);
    ParseCut(m, cut);
  }

  /** Whatever the pace of either side's system calls, every list of messages arrives unchanged. */
  method Transfer(msgs: seq<NetMsg>, paceOut: nat -> nat, paceIn: nat -> nat) returns (got: seq<Received>)
    requires forall m :: m in msgs ==> |m.body| <= 65532
    ensures got == DeliverAll(msgs)
  {
    var out := new Channel([], paceOut);
    out.SendAll(msgs);
    assert [] + WireAll(msgs) == WireAll(msgs);
    var inp := new Channel(out.output, paceIn);
    ParseAllWire(msgs);
    got := inp.ReceiveAll();
  }
}
