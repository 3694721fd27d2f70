/** Bitmap-driven typed payloads: what the host builds and parses in dev_handler/message.c and what the
    device builds and parses in lowcar/devices/Device/Device.cpp. */
module Payload {
  import opened Basics

  const BITMAP_SIZE: nat := 4

  const SUBSCRIPTION_REQUEST: byte := 3
  const DEVICE_WRITE: byte := 4
  const DEVICE_DATA: byte := 5

  datatype ParamType = INT | FLOAT | BOOL

  datatype ParamDesc = ParamDesc(typ: ParamType, read: bool, write: bool)

  /** device_t: entries from `numParams` on are zero-initialised. */
  datatype DeviceDesc = DeviceDesc(numParams: nat, params: seq<ParamDesc>)

  predicate IsTable(d: DeviceDesc) { 1 <= d.numParams <= MAX_PARAMS && |d.params| == MAX_PARAMS }

  type Table = d: DeviceDesc | IsTable(d) witness DeviceDesc(1, seq(32, i => ParamDesc(INT, false, false)))

  /** The number of bytes each parameter takes in a payload. */
  type Sizes = s: seq<nat> | |s| == MAX_PARAMS && forall i :: 0 <= i < MAX_PARAMS ==> s[i] <= 4 witness seq(32, i => 0)

  function ZeroValues(): (r: seq<Word>)
    ensures |r| == MAX_PARAMS
  {
    var zero: Word := ZERO_WORD;
    seq(MAX_PARAMS, i => zero)
  }

  type Values = v: seq<Word> | |v| == MAX_PARAMS witness ZeroValues()

  function SizeOf(t: ParamType): (n: nat) { if t == BOOL then 1 else 4 }

  function TableSizes(d: Table): (s: Sizes) { seq(MAX_PARAMS, i requires 0 <= i < MAX_PARAMS => SizeOf(d.params[i].typ)) }

  /** `(x >> i) > 0` */
  predicate AnyFrom(x: Bitmap, i: nat) { exists j :: j in x && i <= j }

  // ------------------------------------------------------------------ bitmaps as bytes

  function Bit(x: Bitmap, i: nat): (b: nat) { if i in x then 1 else 0 }

  /** The `n` bits from bit `k` on, as a number. */
  function BitsFrom(x: Bitmap, k: nat, n: nat): (r: nat)
    ensures r < PowerOfTwo(n)
    decreases n
  {
    if n == 0 then 0 else Bit(x, k) + 2 * BitsFrom(x, k + 1, n - 1)
  }

  function ByteAt(x: Bitmap, k: nat): (b: byte)
  {
    assert PowerOfTwo(8) == 256;
    BitsFrom(x, k, 8)
  }

  /** A bitmap as the little-endian bytes of its `uint32_t`. */
  function BitmapBytes(x: Bitmap): (r: seq<byte>)
    ensures |r| == BITMAP_SIZE
  {
    [ByteAt(x, 0), ByteAt(x, 8), ByteAt(x, 16), ByteAt(x, 24)]
  }

  function BytesBitmap(s: seq<byte>): (x: Bitmap)
    requires |s| == BITMAP_SIZE
  {
    set i: nat | i < 32 && OnIn(s[i / 8], i % 8)
  }

  lemma {:induction false} BitOfBits(x: Bitmap, k: nat, n: nat, j: nat)
    requires j < n
    ensures OnIn(BitsFrom(x, k, n), j) <==> k + j in x
    decreases n
  {
    hide OnIn;
    Halves(Bit(x, k), BitsFrom(x, k + 1, n - 1));
    OnInStep(BitsFrom(x, k, n), j);
    if j > 0 { BitOfBits(x, k + 1, n - 1, j - 1); }
  }

  lemma BitmapRoundTrip(x: Bitmap)
    ensures BytesBitmap(BitmapBytes(x)) == x
  {
    hide OnIn, BitsFrom;
    forall i: nat | i < 32 ensures i in BytesBitmap(BitmapBytes(x)) <==> i in x {
      assert BitmapBytes(x)[i / 8] == ByteAt(x, 8 * (i / 8));
      BitOfBits(x, 8 * (i / 8), 8, i % 8);
    }
  }

  /** The number that the first `n` bits of a `uint32_t` stand for. */
  function Number(x: Bitmap, n: nat): (r: nat)
  {
    if n == 0 then 0 else Number(x, n - 1) + if n - 1 in x then PowerOfTwo(n - 1) else 0
  }

  lemma Doubled(p: nat, b: nat, r: nat)
    requires b <= 1
    ensures p * (b + 2 * r) == (if b == 1 then p else 0) + 2 * p * r
  {
    assert p * (b + 2 * r) == p * b + p * (2 * r);
  }

  lemma NumberUnfold(x: Bitmap, k: nat, n: nat)
    requires n > 0
    ensures Number(x, k + 1) == Number(x, k) + (if Bit(x, k) == 1 then PowerOfTwo(k) else 0)
    ensures BitsFrom(x, k, n) == Bit(x, k) + 2 * BitsFrom(x, k + 1, n - 1) && PowerOfTwo(k + 1) == 2 * PowerOfTwo(k)
    ensures BitsFrom(x, k, 0) == 0
  {
  }

  lemma {:induction false} NumberSplits(x: Bitmap, k: nat, n: nat)
    ensures Number(x, k + n) == Number(x, k) + PowerOfTwo(k) * BitsFrom(x, k, n)
    decreases n
  {
    hide Number, BitsFrom, PowerOfTwo, Bit;
    NumberUnfold(x, k, if n > 0 then n else 1);
    if n > 0 {
      NumberSplits(x, k + 1, n - 1);
      OneBit(x, k);
      Doubled(PowerOfTwo(k), Bit(x, k), BitsFrom(x, k + 1, n - 1));
    }
  }

  lemma OneBit(x: Bitmap, k: nat)
    ensures Bit(x, k) <= 1
  {
  }

  /** The four bytes are the number, lowest byte first. */
  lemma BitmapLittleEndian(x: Bitmap)
    ensures var b := BitmapBytes(x); b[0] as int + 0x100 * b[1] as int + 0x1_0000 * b[2] as int + 0x100_0000 * b[3] as int == Number(x, 32)
  {
    hide BitsFrom, Number;
    NumberSplits(x, 0, 8);
    NumberSplits(x, 8, 8);
    NumberSplits(x, 16, 8);
    NumberSplits(x, 24, 8);
    Powers(x);
  }

  lemma Powers(x: Bitmap)
    ensures PowerOfTwo(0) == 1 && PowerOfTwo(8) == 0x100 && PowerOfTwo(16) == 0x1_0000 && PowerOfTwo(24) == 0x100_0000
    ensures Number(x, 0) == 0
  {
  }

  // ------------------------------------------------------------------ values

  /** The bytes of the parameters of `mask` from `i` on, each at its size. */
  function Packed(sizes: Sizes, mask: Bitmap, vals: Values, i: nat): (r: seq<byte>)
    requires i <= MAX_PARAMS
    ensures |r| <= 4 * (MAX_PARAMS - i)
    decreases MAX_PARAMS - i
  {
    if i == MAX_PARAMS then []
    else (if i in mask then vals[i][..sizes[i]] else []) + Packed(sizes, mask, vals, i + 1)
  }

  /** A parameter whose first bytes are overwritten. */
  function Patch(w: Word, bytes: seq<byte>): (r: Word)
    requires |bytes| <= 4
  {
    bytes + w[|bytes|..]
  }

  /** The parameters after those of `mask` from `i` on have been taken, in order, from `buf` at `off`. */
  function Unpacked(sizes: Sizes, mask: Bitmap, buf: seq<byte>, off: nat, i: nat, vals: Values): (r: Values)
    requires i <= MAX_PARAMS && off + 4 * (MAX_PARAMS - i) <= |buf|
    decreases MAX_PARAMS - i
  {
    if i == MAX_PARAMS then vals
    else if i in mask then
      Unpacked(sizes, mask, buf, off + sizes[i], i + 1, vals[i := Patch(vals[i], buf[off..off + sizes[i]])])
    else Unpacked(sizes, mask, buf, off, i + 1, vals)
  }

  /** `into` with the parameters of `mask` from `i` on taken from `vals`, as much of each as its size. */
  function Merged(sizes: Sizes, mask: Bitmap, vals: Values, i: nat, into: Values): (r: Values)
    ensures forall p :: 0 <= p < MAX_PARAMS ==> r[p] == if p in mask && i <= p then Patch(into[p], vals[p][..sizes[p]]) else into[p]
  {
    seq(MAX_PARAMS, p requires 0 <= p < MAX_PARAMS => if p in mask && i <= p then Patch(into[p], vals[p][..sizes[p]]) else into[p])
  }

  ghost predicate AgreeOn(s: Sizes, t: Sizes, mask: Bitmap) { forall p :: p in mask ==> s[p] == t[p] }

  lemma PackedUnfold(sizes: Sizes, mask: Bitmap, vals: Values, i: nat)
    requires i < MAX_PARAMS
    ensures Packed(sizes, mask, vals, i) == (if i in mask then vals[i][..sizes[i]] else []) + Packed(sizes, mask, vals, i + 1)
    ensures i !in mask ==> Packed(sizes, mask, vals, i) == Packed(sizes, mask, vals, i + 1)
  {
  }

  lemma MergedStep(sizes: Sizes, mask: Bitmap, vals: Values, i: nat, into: Values)
    requires i < MAX_PARAMS
    ensures i in mask ==> Merged(sizes, mask, vals, i + 1, into[i := Patch(into[i], vals[i][..sizes[i]])]) == Merged(sizes, mask, vals, i, into)
    ensures i !in mask ==> Merged(sizes, mask, vals, i + 1, into) == Merged(sizes, mask, vals, i, into)
  {
  }

  lemma PrefixParts(head: seq<byte>, rest: seq<byte>, buf: seq<byte>, off: nat)
    requires off <= |buf| && head + rest <= buf[off..]
    ensures off + |head| <= |buf| && buf[off..off + |head|] == head && rest <= buf[off + |head|..]
  {
    var t := buf[off..];
    assert t[..|head|] == (head + rest)[..|head|];
    assert t[|head|..|head| + |rest|] == (head + rest)[|head|..];
    assert buf[off + |head|..] == t[|head|..];
    assert t[|head|..][..|rest|] == t[|head|..|head| + |rest|];
  }

  /** Taking apart what was packed gives each parameter of the mask its own value and touches no other,
      whatever the buffer holds behind. */
  lemma {:induction false} UnpackPacked(
    packing: Sizes, taking: Sizes, mask: Bitmap, vals: Values, i: nat, buf: seq<byte>, off: nat, into: Values)
    requires i <= MAX_PARAMS && off + 4 * (MAX_PARAMS - i) <= |buf| && AgreeOn(packing, taking, mask)
    requires Packed(packing, mask, vals, i) <= buf[off..]
    ensures Unpacked(taking, mask, buf, off, i, into) == Merged(packing, mask, vals, i, into)
    decreases MAX_PARAMS - i
  {
    hide Packed, Patch, Merged;
    if i == MAX_PARAMS {
      assert Merged(packing, mask, vals, i, into) == into;
    } else {
      PackedUnfold(packing, mask, vals, i);
      MergedStep(packing, mask, vals, i, into);
      if i in mask {
        var head := vals[i][..packing[i]];
        PrefixParts(head, Packed(packing, mask, vals, i + 1), buf, off);
        UnpackPacked(packing, taking, mask, vals, i + 1, buf, off + packing[i], into[i := Patch(into[i], head)]);
      } else {
        UnpackPacked(packing, taking, mask, vals, i + 1, buf, off, into);
      }
    }
  }

  /** The loops stop once no higher bit is on: nothing is left to do then. */
  lemma {:induction false} NothingLeft(sizes: Sizes, mask: Bitmap, vals: Values, i: nat)
    requires i <= MAX_PARAMS && !AnyFrom(mask, i)
    ensures Packed(sizes, mask, vals, i) == []
    decreases MAX_PARAMS - i
  {
    if i < MAX_PARAMS { NothingLeft(sizes, mask, vals, i + 1); }
  }

  lemma {:induction false} NothingTaken(sizes: Sizes, mask: Bitmap, buf: seq<byte>, off: nat, i: nat, vals: Values)
    requires i <= MAX_PARAMS && off + 4 * (MAX_PARAMS - i) <= |buf| && !AnyFrom(mask, i)
    ensures Unpacked(sizes, mask, buf, off, i, vals) == vals
    decreases MAX_PARAMS - i
  {
    if i < MAX_PARAMS { NothingTaken(sizes, mask, buf, off, i + 1, vals); }
  }

  // ------------------------------------------------------------------ host: build

  /** The requested parameters that exist and are writable, or readable. */
  function Writable(d: Table, pmap: Bitmap): (r: Bitmap) { set i | i in pmap && i < d.numParams && d.params[i].write }

  function Readable(d: Table, pmap: Bitmap): (r: Bitmap) { set i | i in pmap && i < d.numParams && d.params[i].read }

  /** The payload that carries `vals` for the parameters of `mask`. */
  function ValuePayload(sizes: Sizes, mask: Bitmap, vals: Values): (r: seq<byte>)
    ensures BITMAP_SIZE <= |r| <= MAX_PAYLOAD_SIZE
  {
    BitmapBytes(mask) + Packed(sizes, mask, vals, 0)
  }

  /** The INT and FLOAT parameters of `mask` from `i` on, and the BOOL ones. */
  function Wide(d: Table, mask: Bitmap, i: nat): (r: set<nat>) { set p | p in mask && i <= p && d.params[p].typ != BOOL }

  function Narrow(d: Table, mask: Bitmap, i: nat): (r: set<nat>) { set p | p in mask && i <= p && d.params[p].typ == BOOL }

  lemma CountStep(d: Table, mask: Bitmap, i: nat)
    requires i < MAX_PARAMS
    ensures |Wide(d, mask, i)| == |Wide(d, mask, i + 1)| + if i in mask && d.params[i].typ != BOOL then 1 else 0
    ensures |Narrow(d, mask, i)| == |Narrow(d, mask, i + 1)| + if i in mask && d.params[i].typ == BOOL then 1 else 0
  {
    var wide, narrow := Wide(d, mask, i + 1), Narrow(d, mask, i + 1);
    assert Wide(d, mask, i) == if i in mask && d.params[i].typ != BOOL then wide + {i} else wide;
    assert Narrow(d, mask, i) == if i in mask && d.params[i].typ == BOOL then narrow + {i} else narrow;
  }

  /** An INT or FLOAT takes four bytes of a payload and a BOOL one. */
  lemma {:induction false} PackedLength(d: Table, mask: Bitmap, vals: Values, i: nat)
    requires i <= MAX_PARAMS
    ensures |Packed(TableSizes(d), mask, vals, i)| == 4 * |Wide(d, mask, i)| + |Narrow(d, mask, i)|
    decreases MAX_PARAMS - i
  {
    if i == MAX_PARAMS {
      assert Wide(d, mask, i) == {} && Narrow(d, mask, i) == {};
    } else {
      hide Packed, Wide, Narrow;
      PackedUnfold(TableSizes(d), mask, vals, i);
      PackedLength(d, mask, vals, i + 1);
      CountStep(d, mask, i);
    }
  }

  /** message_t with its malloc'ed payload. */
  class HostMessage {
    const id: byte
    const payload: array<byte>
    var payloadLength: nat
    const maxPayloadLength: nat

    ghost predicate Valid() reads this { payloadLength <= payload.Length == maxPayloadLength }

    constructor (id: byte, size: nat)
      ensures Valid() && fresh(payload) && this.id == id && payloadLength == 0 && maxPayloadLength == size
    {
      this.id, payload, payloadLength, maxPayloadLength := id, new byte[size], 0, size;
    }

    /** append_payload: the copy comes before the check, so the caller must leave room. */
    method AppendPayload(data: seq<byte>) returns (status: int)
      requires Valid() && payloadLength + |data| <= payload.Length
      modifies this`payloadLength, payload
      ensures Valid() && status == 0
      ensures payloadLength == old(payloadLength) + |data|
      ensures payload[..payloadLength] == old(payload[..payloadLength]) + data
    {
      for k := 0 to |data|
        invariant Valid() && payloadLength == old(payloadLength)
        invariant payload[..payloadLength] == old(payload[..payloadLength])
        invariant payload[payloadLength..payloadLength + k] == data[..k]
      {
        payload[payloadLength + k] := data[k];
      }
      payloadLength := payloadLength + |data|;
      status := if payloadLength > maxPayloadLength then -1 else 0;
    }

    /** The member of the union that the parameter's type selects. */
    method AppendValue(typ: ParamType, val: Word) returns (status: int)
      requires Valid() && payloadLength + SizeOf(typ) <= payload.Length
      modifies this`payloadLength, payload
      ensures Valid() && status == 0
      ensures payloadLength == old(payloadLength) + SizeOf(typ)
      ensures payload[..payloadLength] == old(payload[..payloadLength]) + val[..SizeOf(typ)]
    {
      match typ
      case INT => status := AppendPayload(val[..4]);
      case FLOAT => status := AppendPayload(val[..4]);
      case BOOL => status := AppendPayload(val[..1]);
    }
  }

  /** device_write_payload_size; the result is exactly what the values will take. */
  method DeviceWritePayloadSize(d: Table, pmap: Bitmap, ghost vals: Values) returns (result: nat)
    ensures result == |ValuePayload(TableSizes(d), pmap, vals)|
  {
    result := BITMAP_SIZE;
    var i := 0;
    ghost var sizes := TableSizes(d);
    while AnyFrom(pmap, i) && i < MAX_PARAMS
      invariant i <= MAX_PARAMS
      invariant result + |Packed(sizes, pmap, vals, i)| == |ValuePayload(sizes, pmap, vals)|
      decreases MAX_PARAMS - i
    {
      PackedUnfold(sizes, pmap, vals, i);
      if i in pmap {
        match d.params[i].typ
        case INT => result := result + 4;
        case FLOAT => result := result + 4;
        case BOOL => result := result + 1;
      }
      i := i + 1;
    }
    if i < MAX_PARAMS { NothingLeft(sizes, pmap, vals, i); }
  }

  /** make_device_write: never NULL, and the payload is exactly full. */
  method MakeDeviceWrite(d: Table, pmap: Bitmap, vals: Values) returns (msg: HostMessage?)
    ensures msg != null && fresh(msg) && fresh(msg.payload) && msg.id == DEVICE_WRITE
    ensures msg.payloadLength == msg.maxPayloadLength == msg.payload.Length
    ensures msg.payload.Length == 4 + 4 * |Wide(d, Writable(d, pmap), 0)| + |Narrow(d, Writable(d, pmap), 0)|
    ensures msg.payload[..] == ValuePayload(TableSizes(d), Writable(d, pmap), vals)
  {
    hide Packed, BitmapBytes;
    var mask := FilterWritable(d, pmap);
    ghost var sizes := TableSizes(d);
    ghost var whole := ValuePayload(sizes, mask, vals);
    var size := DeviceWritePayloadSize(d, mask, vals);
    var m := new HostMessage(DEVICE_WRITE, size);
    var status := m.AppendPayload(BitmapBytes(mask));
    var i := 0;
    while AnyFrom(mask, i) && i < MAX_PARAMS
      invariant i <= MAX_PARAMS && m.Valid() && m.payload.Length == |whole| && status == 0
      invariant m.payload[..m.payloadLength] + Packed(sizes, mask, vals, i) == whole
      decreases MAX_PARAMS - i
    {
      PackedUnfold(sizes, mask, vals, i);
      if i in mask {
        ghost var before, rest := m.payload[..m.payloadLength], Packed(sizes, mask, vals, i + 1);
        assert |before| + |Packed(sizes, mask, vals, i)| == |whole|;
        var s := m.AppendValue(d.params[i].typ, vals[i]);
        status := status + s;
        assert before + (vals[i][..sizes[i]] + rest) == before + vals[i][..sizes[i]] + rest;
      }
      i := i + 1;
    }
    if i < MAX_PARAMS { NothingLeft(sizes, mask, vals, i); }
    assert m.payload[..m.payloadLength] == whole;
    PackedLength(d, mask, vals, 0);
    msg := if status == 0 then m else null;
  }

  /** The masking loop of make_device_write. Bits below `i` have been decided; the loop may stop early. */
  method FilterWritable(d: Table, pmap: Bitmap) returns (mask: Bitmap)
    ensures mask == Writable(d, pmap)
  {
    mask := set j | j in pmap && j < d.numParams;
    var i := 0;
    while AnyFrom(mask, i) && i < MAX_PARAMS
      invariant i <= MAX_PARAMS
      invariant forall j :: j in mask <==> j in pmap && j < d.numParams && (j < i ==> d.params[j].write)
      decreases MAX_PARAMS - i
    {
      if !d.params[i].write {
        mask := mask - {i};
      }
      i := i + 1;
    }
  }

  method FilterReadable(d: Table, pmap: Bitmap) returns (mask: Bitmap)
    ensures mask == Readable(d, pmap)
  {
    mask := set j | j in pmap && j < d.numParams;
    for i := 0 to MAX_PARAMS
      invariant forall j :: j in mask <==> j in pmap && j < d.numParams && (j < i ==> d.params[j].read)
    {
      if !d.params[i].read {
        mask := mask - {i};
      }
    }
  }

  /** make_subscription_request */
  method MakeSubscriptionRequest(d: Table, pmap: Bitmap, interval: nat) returns (msg: HostMessage?)
    requires interval < 65536
    ensures msg != null && fresh(msg) && fresh(msg.payload) && msg.id == SUBSCRIPTION_REQUEST
    ensures msg.payloadLength == msg.maxPayloadLength == msg.payload.Length
    ensures msg.payload[..] == BitmapBytes(Readable(d, pmap)) + Bytes16(interval)
  {
    var mask := FilterReadable(d, pmap);
    var m := new HostMessage(SUBSCRIPTION_REQUEST, BITMAP_SIZE + 2);
    var status := m.AppendPayload(BitmapBytes(mask));
    var s := m.AppendPayload(Bytes16(interval));
    assert m.payload[..m.payloadLength] == m.payload[..];
    msg := if status + s == 0 then m else null;
  }

  lemma UnpackedUnfold(sizes: Sizes, mask: Bitmap, buf: seq<byte>, off: nat, i: nat, vals: Values)
    requires i < MAX_PARAMS && off + 4 * (MAX_PARAMS - i) <= |buf|
    ensures Unpacked(sizes, mask, buf, off, i, vals) ==
            if i in mask then Unpacked(sizes, mask, buf, off + sizes[i], i + 1, vals[i := Patch(vals[i], buf[off..off + sizes[i]])])
            else Unpacked(sizes, mask, buf, off, i + 1, vals)
  {
  }

  /** One store of parse_device_data: a BOOL replaces the first byte of the union only. */
  method TakeValue(typ: ParamType, payload: seq<byte>, at: nat, was: Word) returns (v: Word, n: nat)
    requires at + 4 <= |payload|
    ensures n == SizeOf(typ) && v == Patch(was, payload[at..at + n])
  {
    match typ
    case INT => v, n := payload[at..at + 4], 4;
    case FLOAT => v, n := payload[at..at + 4], 4;
    case BOOL => v, n := was[0 := payload[at]], 1;
  }

  /** parse_device_data: `vals` keeps what it held where nothing is stored. */
  method ParseDeviceData(d: Table, payload: seq<byte>, vals: array<Word>)
    requires |payload| == MAX_PAYLOAD_SIZE && vals.Length == MAX_PARAMS
    modifies vals
    ensures vals[..] == Unpacked(TableSizes(d), BytesBitmap(payload[..BITMAP_SIZE]), payload, BITMAP_SIZE, 0, old(vals[..]))
  {
    hide Unpacked, BytesBitmap, Patch;
    var bitmap := BytesBitmap(payload[..BITMAP_SIZE]);
    var at: nat, i: nat := BITMAP_SIZE, 0;
    ghost var sizes, whole := TableSizes(d), Unpacked(TableSizes(d), bitmap, payload, BITMAP_SIZE, 0, vals[..]);
    while AnyFrom(bitmap, i) && i < MAX_PARAMS
      invariant i <= MAX_PARAMS && at <= BITMAP_SIZE + 4 * i
      invariant Unpacked(sizes, bitmap, payload, at, i, vals[..]) == whole
      decreases MAX_PARAMS - i
    {
      UnpackedUnfold(sizes, bitmap, payload, at, i, vals[..]);
      if i in bitmap {
        ghost var was := vals[..];
        var v, n := TakeValue(d.params[i].typ, payload, at, vals[i]);
        vals[i], at := v, at + n;
        assert vals[..] == was[i := v];
      }
      i := i + 1;
    }
    NothingTaken(sizes, bitmap, payload, at, i, vals[..]);
  }
}
