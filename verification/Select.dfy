/** PICC_Select of lowcar/lib/MFRC522/MFRC522.cpp: the cascade and anticollision loops over whatever the
    air answers. */
module Select {
  import opened Basics

  datatype Status = OK | ERROR | COLLISION | TIMEOUT | NO_ROOM | INTERNAL_ERROR | INVALID | CRC_WRONG | MIFARE_NACK

  const CT: byte := 0x88
  const SEL_CL1: byte := 0x93
  const SEL_CL2: byte := 0x95
  const SEL_CL3: byte := 0x97

  /** What one exchange with the chip gives: FIFO contents, valid bits of the last byte, CollReg. */
  datatype Reply = Reply(status: Status, data: seq<byte>, lastBits: byte, coll: byte)

  /** What the checksum unit gives, unless it times out. */
  datatype Crc = Crc(done: bool, lo: byte, hi: byte)

  /** What comes back may depend on every frame sent before, the frame itself, and how many bits of its last
      byte are valid. */
  type Air = (seq<seq<byte>>, seq<byte>, nat) -> Reply

  type CrcUnit = (nat, seq<byte>) -> Crc

  /** The bits of `b` from `align` on over the lower bits of `was`. */
  function Merge(was: byte, b: byte, align: nat): (r: byte)
  {
    if align == 0 then b else ByteOf((i: nat) => if i < align then OnIn(was, i) else OnIn(b, i))
  }

  function SetBit(b: byte, j: nat): (r: byte)
    requires j < 8
  {
    ByteOf((i: nat) => i == j || OnIn(b, i))
  }

  /** Bits below `align` stay, the others are taken over; and setting a bit sets that bit alone. */
  lemma BitsMerged(was: byte, b: byte, align: nat, i: nat)
    requires i < 8
    ensures OnIn(Merge(was, b, align), i) <==> if i < align then OnIn(was, i) else OnIn(b, i)
    ensures align < 8 ==> (OnIn(SetBit(b, align), i) <==> i == align || OnIn(b, i))
  {
    hide OnIn;
    FromBitsOn((k: nat) => if k < align then OnIn(was, k) else OnIn(b, k), 0, 8, i);
    FromBitsOn((k: nat) => k == align || OnIn(b, k), 0, 8, i);
  }

  predicate CascadeBit(sak: byte) { (sak / 4) % 2 == 1 }

  function SelOf(level: nat): (b: byte) { if level == 1 then SEL_CL1 else if level == 2 then SEL_CL2 else SEL_CL3 }

  /** The caller knows that the UID goes on behind this level. */
  predicate TagKnown(level: nat, size: nat, validBits: nat) { validBits != 0 && level < 3 && size > 3 * level + 1 }

  function KnownBits(level: nat, size: nat, validBits: nat): (n: nat)
    requires 1 <= level <= 3
  {
    var bits := validBits - 24 * (level - 1);
    (if bits < 0 then 0 else bits) + if TagKnown(level, size, validBits) then 8 else 0
  }

  /** The number of bytes that hold the known bits. */
  function KnownCount(bits: nat, most: nat): (n: nat)
    ensures n <= most
  {
    if (bits + 7) / 8 > most then most else (bits + 7) / 8
  }

  lemma CountRoundsUp(bits: nat, most: nat)
    ensures var n := bits / 8 + if bits % 8 != 0 then 1 else 0; KnownCount(bits, most) == if n > most then most else n
  {
  }

  function KnownBytes(level: nat, size: nat, validBits: nat, uid: seq<byte>): (r: seq<byte>)
    requires 1 <= level <= 3 && |uid| == 10
    ensures |r| <= 4
  {
    var bits, tag := validBits - 24 * (level - 1), TagKnown(level, size, validBits);
    var n := KnownCount(if bits < 0 then 0 else bits, if tag then 3 else 4);
    (if tag then [CT] else []) + uid[3 * (level - 1)..3 * (level - 1) + n]
  }

  // ------------------------------------------------------------------ a card on its own

  /** A card: its UID and its SAK at each cascade level. */
  datatype Card = Card(uid: seq<byte>, saks: seq<byte>)

  /** 4, 7 or 10 bytes in one, two or three levels; every SAK but the last announces another level, by its third
      bit. */
  predicate Conforms(c: Card)
  {
    && 1 <= |c.saks| <= 3 && |c.uid| == 3 * |c.saks| + 1
    && forall l :: 0 <= l < |c.saks| ==> (c.saks[l] % 8 >= 4 <==> l < |c.saks| - 1)
  }

  /** Bytes 2 to 5 of a level: section 6.5.4 of ISO/IEC 14443-3. */
  function LevelBytes(c: Card, level: nat): (r: seq<byte>)
    requires Conforms(c) && 1 <= level <= |c.saks|
    ensures |r| == 4
  {
    var at := 3 * (level - 1);
    if level < |c.saks| then [0x88] + c.uid[at..at + 3] else c.uid[at..at + 4]
  }

  function Bcc(b: seq<byte>): (r: byte)
    requires |b| == 4
  {
    Xor(Xor(Xor(b[0], b[1]), b[2]), b[3])
  }

  /** A bit of the check byte is on exactly if an odd number of the four bytes has it on. */
  lemma BccBits(b: seq<byte>, j: nat)
    requires |b| == 4 && j < 8
    ensures OnIn(Bcc(b), j) <==> ((OnIn(b[0], j) != OnIn(b[1], j)) != (OnIn(b[2], j) != OnIn(b[3], j)))
  {
    hide OnIn, Xor;
    XorOn(b[0], b[1], j);
    XorOn(Xor(b[0], b[1]), b[2], j);
    XorOn(Xor(Xor(b[0], b[1]), b[2]), b[3], j);
  }

  type CrcA = seq<byte> -> (byte, byte)

  function WithCrc(f: CrcA, d: seq<byte>): (r: seq<byte>) { d + [f(d).0, f(d).1] }

  function SelectFrame(c: Card, level: nat): (r: seq<byte>)
    requires Conforms(c) && 1 <= level <= |c.saks|
  {
    [0x91 + 2 * level, 0x70] + LevelBytes(c, level) + [Bcc(LevelBytes(c, level))]
  }

  predicate Answers(r: Reply, data: seq<byte>) { r.status == OK && r.data == data && r.lastBits == 0 }

  function AskFrame(level: nat): (r: seq<byte>)
    requires level <= 3
  {
    [0x91 + 2 * level, 0x20]
  }

  /** The SEL bytes of the three levels. */
  lemma SelBytes(c: Card, level: nat)
    requires Conforms(c) && 1 <= level <= |c.saks|
    ensures SelOf(level) as int == 0x91 + 2 * level && level <= 3
  {
  }

  /** The cascade level a card in the READY state is at after the frames `h`: an anticollision frame leaves it
      at its level, its select frame takes it to the next one, and beyond the last one it is selected. After
      any other frame nothing is claimed. */
  function LevelAfter(f: CrcA, c: Card, h: seq<seq<byte>>): (l: Option<nat>)
    requires Conforms(c)
    ensures l.Some? ==> 1 <= l.value <= |c.saks| + 1
  {
    if h == [] then Some(1)
    else
      var n := |h| - 1;
      var l := LevelAfter(f, c, h[..n]);
      if l.None? || l.value > |c.saks| then None
      else if h[n] == AskFrame(l.value) then l
      else if h[n] == WithCrc(f, SelectFrame(c, l.value)) then Some(l.value + 1)
      else None
  }

  lemma {:induction false} LevelSnoc(f: CrcA, c: Card, h: seq<seq<byte>>, frame: seq<byte>, l: nat)
    requires Conforms(c) && 1 <= l <= |c.saks| && LevelAfter(f, c, h) == Some(l)
    ensures LevelAfter(f, c, h + [frame]) ==
            if frame == AskFrame(l) then Some(l) else if frame == WithCrc(f, SelectFrame(c, l)) then Some(l + 1) else None
  {
    hide AskFrame, WithCrc, SelectFrame;
    assert (h + [frame])[..|h|] == h;
  }

  lemma AskIsNoSelect(f: CrcA, c: Card, l: nat)
    requires Conforms(c) && 1 <= l <= |c.saks|
    ensures |AskFrame(l)| == 2 && |WithCrc(f, SelectFrame(c, l))| == 9
  {
  }

  /** After the frames `start` the card is alone in the field and READY: it answers the anticollision and the
      select frame of the level it is at, and of no other; and the checksum unit works. */
  ghost predicate Alone(air: Air, crcUnit: CrcUnit, f: CrcA, c: Card, start: seq<seq<byte>>)
    requires Conforms(c)
  {
    && (forall k, d :: crcUnit(k, d) == Crc(true, f(d).0, f(d).1))
    && (forall h {:trigger LevelAfter(f, c, h)} :: LevelAfter(f, c, h).Some? && LevelAfter(f, c, h).value <= |c.saks| ==>
          var l := LevelAfter(f, c, h).value;
          && Answers(air(start + h, AskFrame(l), 0), LevelBytes(c, l) + [Bcc(LevelBytes(c, l))])
          && Answers(air(start + h, WithCrc(f, SelectFrame(c, l)), 0), WithCrc(f, [c.saks[l - 1]])))
  }

  lemma AloneCrc(air: Air, crcUnit: CrcUnit, f: CrcA, c: Card, start: seq<seq<byte>>, k: nat, d: seq<byte>)
    requires Conforms(c) && Alone(air, crcUnit, f, c, start)
    ensures crcUnit(k, d) == Crc(true, f(d).0, f(d).1)
  {
  }

  /** Such a card as an environment: silent unless asked at the level it is at. */
  function CardReply(f: CrcA, c: Card, start: seq<seq<byte>>, h: seq<seq<byte>>, frame: seq<byte>): (r: Reply)
    requires Conforms(c)
  {
    var l := if start <= h then LevelAfter(f, c, h[|start|..]) else None;
    if l.None? || l.value > |c.saks| then Reply(TIMEOUT, [], 0, 0)
    else if frame == AskFrame(l.value) then Reply(OK, LevelBytes(c, l.value) + [Bcc(LevelBytes(c, l.value))], 0, 0)
    else if frame == WithCrc(f, SelectFrame(c, l.value)) then Reply(OK, WithCrc(f, [c.saks[l.value - 1]]), 0, 0)
    else Reply(TIMEOUT, [], 0, 0)
  }

  /** The hypothesis is that of a real card: this one meets it, answers level 2 only after the SELECT of level
      1, and is silent once selected. */
  lemma {:induction false} CardIsAlone(f: CrcA, c: Card, start: seq<seq<byte>>)
    requires Conforms(c)
    ensures Alone((h, frame, bits) => CardReply(f, c, start, h, frame), (k, d) => Crc(true, f(d).0, f(d).1), f, c, start)
    ensures CardReply(f, c, start, start, AskFrame(2)).status == TIMEOUT
    ensures forall h, frame :: LevelAfter(f, c, h) == Some(|c.saks| + 1) ==> CardReply(f, c, start, start + h, frame).status == TIMEOUT
  {
    hide LevelAfter, WithCrc, SelectFrame, LevelBytes, Bcc;
    forall h | LevelAfter(f, c, h).Some? && LevelAfter(f, c, h).value <= |c.saks|
      ensures var l := LevelAfter(f, c, h).value;
              && Answers(CardReply(f, c, start, start + h, AskFrame(l)), LevelBytes(c, l) + [Bcc(LevelBytes(c, l))])
              && Answers(CardReply(f, c, start, start + h, WithCrc(f, SelectFrame(c, l))), WithCrc(f, [c.saks[l - 1]]))
    {
      assert (start + h)[|start|..] == h;
      AskIsNoSelect(f, c, LevelAfter(f, c, h).value);
    }
    forall h, frame | LevelAfter(f, c, h) == Some(|c.saks| + 1) ensures CardReply(f, c, start, start + h, frame).status == TIMEOUT {
      assert (start + h)[|start|..] == h;
    }
    assert start[|start|..] == [];
    NoFrames(f, c);
    AskIsNoSelect(f, c, 1);
  }

  lemma NoFrames(f: CrcA, c: Card)
    requires Conforms(c)
    ensures LevelAfter(f, c, []) == Some(1)
  {
  }

  /** The card is at level `l` once the frames `sent` have been sent. */
  ghost predicate AtLevel(air: Air, crcUnit: CrcUnit, f: CrcA, c: Card, start: seq<seq<byte>>, sent: seq<seq<byte>>, l: nat)
  {
    Conforms(c) && Alone(air, crcUnit, f, c, start) && start <= sent && LevelAfter(f, c, sent[|start|..]) == Some(l)
  }

  lemma AloneReplies(air: Air, crcUnit: CrcUnit, f: CrcA, c: Card, start: seq<seq<byte>>, sent: seq<seq<byte>>, l: nat)
    requires AtLevel(air, crcUnit, f, c, start, sent, l) && 1 <= l <= |c.saks|
    ensures Answers(air(sent, AskFrame(l), 0), LevelBytes(c, l) + [Bcc(LevelBytes(c, l))])
    ensures AtLevel(air, crcUnit, f, c, start, sent + [AskFrame(l)], l)
    ensures Answers(air(sent, WithCrc(f, SelectFrame(c, l)), 0), WithCrc(f, [c.saks[l - 1]]))
    ensures AtLevel(air, crcUnit, f, c, start, sent + [WithCrc(f, SelectFrame(c, l))], l + 1)
  {
    hide LevelAfter, WithCrc, SelectFrame, LevelBytes;
    var h := sent[|start|..];
    assert sent == start + h;
    LevelSnoc(f, c, h, AskFrame(l), l);
    LevelSnoc(f, c, h, WithCrc(f, SelectFrame(c, l)), l);
    AskIsNoSelect(f, c, l);
    assert (sent + [AskFrame(l)])[|start|..] == h + [AskFrame(l)];
    assert (sent + [WithCrc(f, SelectFrame(c, l))])[|start|..] == h + [WithCrc(f, SelectFrame(c, l))];
  }

  lemma AtLevelParts(air: Air, crcUnit: CrcUnit, f: CrcA, c: Card, start: seq<seq<byte>>, sent: seq<seq<byte>>, l: nat)
    requires AtLevel(air, crcUnit, f, c, start, sent, l)
    ensures Conforms(c) && Alone(air, crcUnit, f, c, start)
  {
  }

  lemma StartLevel(air: Air, crcUnit: CrcUnit, f: CrcA, c: Card, start: seq<seq<byte>>)
    requires Conforms(c) && Alone(air, crcUnit, f, c, start)
    ensures AtLevel(air, crcUnit, f, c, start, start, 1)
  {
    assert start[|start|..] == [];
  }

  class Uid {
    var size: nat
    const uidByte: array<byte>
    var sak: byte

    constructor ()
      ensures uidByte.Length == 10 && fresh(uidByte)
    {
      size, uidByte, sak := 0, new byte[10](i => 0), 0;
    }
  }

  class Reader {
    const air: Air
    const crcUnit: CrcUnit
    var sent: seq<seq<byte>>    // the frames of all exchanges so far
    var crcs: nat
    var collReg: byte

    constructor (air: Air, crcUnit: CrcUnit)
      ensures this.air == air && this.crcUnit == crcUnit && sent == []
    {
      this.air, this.crcUnit, sent, crcs, collReg := air, crcUnit, [], 0, 0;
    }

    /** PCD_TransceiveData: sends `buffer[..sendLen]`, stores at most `room` bytes at `at`. The first byte is merged
        with what was there unless it is also the last one. */
    method TransceiveData(buffer: array<byte>, sendLen: nat, at: nat, room: nat, bits: nat) returns (status: Status, len: nat, lastBits: nat)
      requires sendLen <= buffer.Length && at + room <= buffer.Length
      modifies this`sent, this`collReg, buffer
      ensures sent == old(sent) + [old(buffer[..sendLen])] && buffer[..at] == old(buffer[..at])
      ensures var r := air(old(sent), old(buffer[..sendLen]), bits);
              && collReg == r.coll
              && status == (if (r.status == OK || r.status == COLLISION) && |r.data| > room then NO_ROOM else r.status)
              && (status == OK || status == COLLISION ==>
                    && len == |r.data| <= room && lastBits == r.lastBits && buffer[at + len..] == old(buffer[at + len..])
                    && (forall j :: 1 <= j < len ==> buffer[at + j] == r.data[j])
                    && (len == 1 ==> buffer[at] == r.data[0]) && (len > 1 ==> buffer[at] == Merge(old(buffer[at]), r.data[0], bits)))
    {
      hide Merge;
      var r := air(sent, buffer[..sendLen], bits);
      sent, collReg := sent + [buffer[..sendLen]], r.coll;
      status, len, lastBits := r.status, room, bits;
      if r.status != OK && r.status != COLLISION {
        return;
      }
      if |r.data| > room {
        status := NO_ROOM;
        return;
      }
      len, lastBits := |r.data|, r.lastBits;
      ghost var was := buffer[..];
      for k := 0 to len
        invariant sent == old(sent) + [old(buffer[..sendLen])] && collReg == r.coll
        invariant forall j :: 0 <= j < buffer.Length ==>
                    buffer[j] == if at <= j < at + k then (if j == at && len > 1 then Merge(was[j], r.data[0], bits) else r.data[j - at]) else was[j]
      {
        buffer[at + k] := if k == 0 && len > 1 then Merge(buffer[at], r.data[0], bits) else r.data[k];
      }
    }

    /** PCD_CalculateCRC on `buffer[from..from + n]`, result to `buffer[to]` and the byte behind it. */
    method CalculateCrc(buffer: array<byte>, from: nat, n: nat, to: nat) returns (status: Status)
      requires from + n <= buffer.Length && to + 2 <= buffer.Length
      modifies this`crcs, buffer
      ensures var r := crcUnit(old(crcs), old(buffer[from..from + n]));
              && status == (if r.done then OK else TIMEOUT)
              && (status == OK ==> buffer[..] == old(buffer[..])[to := r.lo][to + 1 := r.hi])
              && (status != OK ==> buffer[..] == old(buffer[..]))
    {
      var r := crcUnit(crcs, buffer[from..from + n]);
      crcs := crcs + 1;
      status := if r.done then OK else TIMEOUT;
      if status == OK {
        buffer[to], buffer[to + 1] := r.lo, r.hi;
      }
    }

    /** The known bits of one cascade level: SEL byte, cascade tag and known bytes into the buffer. */
    method PrepareLevel(buffer: array<byte>, level: nat, uid: Uid, validBits: nat) returns (known: int)
      requires buffer.Length == 9 && uid.uidByte.Length == 10 && uid.uidByte != buffer && 1 <= level <= 3 && validBits <= 80
      modifies buffer
      ensures buffer[0] == SelOf(level) && known == KnownBits(level, uid.size, validBits)
      ensures var pre := KnownBytes(level, uid.size, validBits, uid.uidByte[..]); buffer[2..2 + |pre|] == pre
    {
      hide KnownCount, TagKnown, SelOf;
      buffer[0] := SelOf(level);
      var uidIndex := 3 * (level - 1);
      var useCascadeTag := TagKnown(level, uid.size, validBits);
      known := validBits - 8 * uidIndex;
      if known < 0 {
        known := 0;
      }
      var index := 2;
      if useCascadeTag {
        buffer[index] := CT;
        index := index + 1;
      }
      var bytesToCopy := known / 8 + if known % 8 != 0 then 1 else 0;
      var maxBytes := if useCascadeTag then 3 else 4;
      CountRoundsUp(known, maxBytes);
      if bytesToCopy != 0 {
        if bytesToCopy > maxBytes {
          bytesToCopy := maxBytes;
        }
        CopyKnown(buffer, index, uid, uidIndex, bytesToCopy);
      }
      ghost var tagged, copied := buffer[2..index], buffer[index..index + bytesToCopy];
      assert tagged == if useCascadeTag then [CT] else [];
      assert copied == uid.uidByte[..][uidIndex..uidIndex + bytesToCopy];
      assert buffer[2..index + bytesToCopy] == tagged + copied;
      if useCascadeTag {
        known := known + 8;
      }
    }

    method CopyKnown(buffer: array<byte>, index: nat, uid: Uid, uidIndex: nat, n: nat)
      requires index + n <= buffer.Length && uidIndex + n <= uid.uidByte.Length && uid.uidByte != buffer
      modifies buffer
      ensures buffer[..index] == old(buffer[..index]) && buffer[index..index + n] == uid.uidByte[uidIndex..uidIndex + n]
    {
      for count := 0 to n
        invariant buffer[..index] == old(buffer[..index])
        invariant buffer[index..index + count] == uid.uidByte[uidIndex..uidIndex + count]
      {
        buffer[index + count] := uid.uidByte[uidIndex + count];
      }
    }

    /** Nothing is known of the UID, or all of it. */
    ghost predicate NoneOrAll(uid: Uid, validBits: nat, c: Card)
      reads uid, uid.uidByte
    {
      validBits == 0 || (uid.uidByte.Length == 10 && validBits == 8 * |c.uid| && uid.size == |c.uid| <= 10 && uid.uidByte[..uid.size] == c.uid)
    }

    /** Card `c` was alone from `start` on and is at level `l`. */
    ghost predicate Facing(f: CrcA, c: Card, start: seq<seq<byte>>, l: nat)
      reads this
    {
      Conforms(c) && 1 <= l <= |c.saks| && AtLevel(air, crcUnit, f, c, start, sent, l)
    }

    /** One SELECT: all bits of the level are known. `went` is false if the checksum unit failed. */
    method SelectCommand(buffer: array<byte>, ghost f: CrcA, ghost c: Card, ghost start: seq<seq<byte>>, ghost l: nat)
      returns (went: bool, status: Status, len: nat, lastBits: nat)
      requires buffer.Length == 9
      modifies this, buffer
      ensures |sent| == |old(sent)| + (if went then 1 else 0) && (!went ==> status != OK)
      ensures buffer[0] == old(buffer[0]) && buffer[2..6] == old(buffer[2..6])
      ensures old(Facing(f, c, start, l)) && old(buffer[0]) == SelOf(l) && old(buffer[2..6]) == LevelBytes(c, l) ==>
                && went && status == OK && len == 3 && lastBits == 0 && buffer[6..9] == WithCrc(f, [c.saks[l - 1]])
                && AtLevel(air, crcUnit, f, c, start, sent, l + 1)
    {
      hide Alone, Xor, LevelBytes, Conforms, SelOf, AtLevel, AskFrame;
      ghost var facing := Facing(f, c, start, l) && buffer[0] == SelOf(l) && buffer[2..6] == LevelBytes(c, l);
      buffer[1] := 0x70;
      buffer[6] := Xor(Xor(Xor(buffer[2], buffer[3]), buffer[4]), buffer[5]);
      ghost var frame, uidPart := buffer[0..7], buffer[2..6];
      assert uidPart == old(buffer[2..6]) && buffer[6] == Bcc(uidPart);
      assert frame == [buffer[0], 0x70] + uidPart + [Bcc(uidPart)];
      if facing {
        AtLevelParts(air, crcUnit, f, c, start, sent, l);
        AloneCrc(air, crcUnit, f, c, start, crcs, frame);
        AloneReplies(air, crcUnit, f, c, start, sent, l);
        SelBytes(c, l);
      }
      status := CalculateCrc(buffer, 0, 7, 7);
      if status != OK {
        return false, status, 0, 0;
      }
      went := true;
      assert buffer[..9] == frame + [buffer[7], buffer[8]];
      assert facing ==> buffer[..9] == WithCrc(f, SelectFrame(c, l));
      status, len, lastBits := TransceiveData(buffer, 9, 6, 3, 0);
    }

    /** One ANTICOLLISION with `known` bits of the level. */
    method Anticollision(buffer: array<byte>, known: nat, ghost f: CrcA, ghost c: Card, ghost start: seq<seq<byte>>, ghost l: nat)
      returns (status: Status, len: nat, lastBits: nat)
      requires buffer.Length == 9 && known < 32
      modifies this, buffer
      ensures |sent| == |old(sent)| + 1 && buffer[0] == old(buffer[0])
      ensures old(Facing(f, c, start, l)) && known == 0 && old(buffer[0]) == SelOf(l) ==>
                status == OK && buffer[2..6] == LevelBytes(c, l) && Facing(f, c, start, l)
    {
      hide Alone, LevelBytes, Conforms, SelOf, Bcc, AtLevel;
      ghost var facing := Facing(f, c, start, l) && known == 0 && buffer[0] == SelOf(l);
      if facing {
        AloneReplies(air, crcUnit, f, c, start, sent, l);
        SelBytes(c, l);
      }
      var txLastBits, count := known % 8, known / 8;
      var index := 2 + count;
      buffer[1] := index * 16 + txLastBits;
      var used := index + if txLastBits != 0 then 1 else 0;
      assert facing ==> buffer[..used] == AskFrame(l);
      status, len, lastBits := TransceiveData(buffer, used, index, 9 - index, txLastBits);
      assert buffer[0] == buffer[..index][0];
      if facing {
        assert buffer[2..2 + len] == LevelBytes(c, l) + [Bcc(LevelBytes(c, l))];
        assert buffer[2..6] == buffer[2..2 + len][..4];
      }
    }

    /** After a collision: the position CollReg reports, and the bit that is chosen there. */
    method ResolveCollision(buffer: array<byte>, known: nat) returns (status: Status, pos: nat)
      requires buffer.Length == 9
      modifies buffer
      ensures var at := if collReg % 32 == 0 then 32 else collReg % 32;
              && status == (if collReg % 64 >= 32 then COLLISION else if at <= known then INTERNAL_ERROR else OK)
              && (status == OK ==> pos == at)
      ensures status != OK ==> buffer[..] == old(buffer[..])
      ensures status == OK ==> known < pos <= 32 && buffer[..] == old(buffer[..])[BitByte(pos) := SetBit(old(buffer[BitByte(pos)]), (pos - 1) % 8)]
      ensures known >= 32 ==> status != OK
    {
      hide SetBit;
      pos := 0;
      if (collReg / 0x20) % 2 == 1 {
        return COLLISION, pos;
      }
      pos := collReg % 0x20;
      if pos == 0 {
        pos := 32;
      }
      if pos <= known {
        return INTERNAL_ERROR, pos;
      }
      var count := (pos - 1) % 8;
      var index := 1 + pos / 8 + if count != 0 then 1 else 0;
      buffer[index] := SetBit(buffer[index], count);
      status := OK;
    }

    /** The anticollision loop of one cascade level: at most 33 exchanges. */
    method SelectLevel(buffer: array<byte>, known0: nat, ghost f: CrcA, ghost c: Card, ghost start: seq<seq<byte>>, ghost l: nat)
      returns (status: Status, len: nat, lastBits: nat)
      requires buffer.Length == 9
      modifies this, buffer
      ensures |old(sent)| <= |sent| <= |old(sent)| + (if known0 < 32 then 33 - known0 else 1)
      ensures old(Facing(f, c, start, l)) && old(buffer[0]) == SelOf(l)
              && (known0 == 0 || (known0 >= 32 && old(buffer[2..6]) == LevelBytes(c, l))) ==>
                && |sent| == |old(sent)| + (if known0 == 0 then 2 else 1) && AtLevel(air, crcUnit, f, c, start, sent, l + 1)
                && status == OK && len == 3 && lastBits == 0
                && buffer[2..6] == LevelBytes(c, l) && buffer[6..9] == WithCrc(f, [c.saks[l - 1]])
    {
      hide Alone, LevelBytes, Conforms, SelOf, WithCrc, AtLevel;
      ghost var facing := Facing(f, c, start, l) && buffer[0] == SelOf(l)
                          && (known0 == 0 || (known0 >= 32 && buffer[2..6] == LevelBytes(c, l)));
      var known := known0;
      var selectDone := false;
      len, lastBits, status := 0, 0, OK;
      while !selectDone
        invariant known0 <= known <= if known0 < 32 then 32 else known0
        invariant |old(sent)| <= |sent| <= |old(sent)| + (known - known0) + if selectDone then 1 else 0
        invariant facing ==> Conforms(c) && 1 <= l <= |c.saks| && buffer[0] == SelOf(l)
        invariant facing ==> (known == 0 || (known >= 32 && buffer[2..6] == LevelBytes(c, l)))
        invariant facing ==> |sent| == |old(sent)| + (if known == known0 then 0 else 1) + (if selectDone then 1 else 0)
        invariant facing ==> if selectDone then AtLevel(air, crcUnit, f, c, start, sent, l + 1) else Facing(f, c, start, l)
        invariant facing && selectDone ==> status == OK && len == 3 && lastBits == 0 && known >= 32 && buffer[6..9] == WithCrc(f, [c.saks[l - 1]])
        decreases if selectDone then 0 else 1, 32 - known
      {
        if known >= 32 {
          var went;
          went, status, len, lastBits := SelectCommand(buffer, f, c, start, l);
          if !went {
            return;
          }
        } else {
          status, len, lastBits := Anticollision(buffer, known, f, c, start, l);
        }
        if status == COLLISION {
          var pos;
          status, pos := ResolveCollision(buffer, known);
          if status != OK {
            return;
          }
          known := pos;
        } else if status != OK {
          return;
        } else if known >= 32 {
          selectDone := true;
        } else {
          known := 32;
        }
      }
    }

    /** What follows a SELECT: the level's UID bytes, the SAK and its checksum. `more` is the SAK's cascade bit. */
    method FinishLevel(buffer: array<byte>, level: nat, uid: Uid, len: nat, lastBits: nat) returns (status: Status, more: bool)
      requires buffer.Length == 9 && uid.uidByte.Length == 10 && uid.uidByte != buffer && 1 <= level <= 3
      modifies this`crcs, buffer, uid`sak, uid.uidByte
      ensures uid.uidByte[..] == Stored(old(uid.uidByte[..]), level, old(buffer[2..6]))
      ensures var sak, r := old(buffer[6]), crcUnit(old(crcs), [old(buffer[6])]);
              && status == (if len != 3 || lastBits != 0 then ERROR else if !r.done then TIMEOUT
                            else if r.lo != old(buffer[7]) || r.hi != old(buffer[8]) then CRC_WRONG else OK)
              && (status == OK ==> (more <==> CascadeBit(sak)) && uid.sak == if more then old(uid.sak) else sak)
    {
      hide Stored;
      more := false;
      var at := 3 * (level - 1);
      var index, bytesToCopy := if buffer[2] == CT then 3 else 2, if buffer[2] == CT then 3 else 4;
      ghost var was, b := uid.uidByte[..], buffer[..];
      for count := 0 to bytesToCopy
        invariant forall j :: 0 <= j < 10 ==> uid.uidByte[j] == if at <= j < at + count then b[index + j - at] else was[j]
        invariant buffer[..] == b && crcs == old(crcs) && uid.sak == old(uid.sak)
      {
        uid.uidByte[at + count] := buffer[index + count];
      }
      CopiedIsStored(uid.uidByte[..], was, level, b);
      if len != 3 || lastBits != 0 {
        return ERROR, more;
      }
      assert buffer[6..6 + 1] == [buffer[6]];
      status := CalculateCrc(buffer, 6, 1, 2);
      if status != OK {
        return;
      }
      if buffer[2] != buffer[7] || buffer[3] != buffer[8] {
        return CRC_WRONG, more;
      }
      if (buffer[6] / 4) % 2 == 1 {
        more := true;
      } else {
        uid.sak := buffer[6];
      }
    }

    /** One turn of the cascade loop. */
    method CascadeLevel(buffer: array<byte>, level: nat, uid: Uid, validBits: nat, ghost f: CrcA, ghost c: Card, ghost start: seq<seq<byte>>)
      returns (status: Status, more: bool)
      requires buffer.Length == 9 && uid.uidByte.Length == 10 && uid.uidByte != buffer && 1 <= level <= 3 && validBits <= 80
      modifies this, buffer, uid`sak, uid.uidByte
      ensures |old(sent)| <= |sent| <= |old(sent)| + 33
      ensures old(NoneOrAll(uid, validBits, c) && Facing(f, c, start, level)) ==>
                && status == OK && |sent| == |old(sent)| + (if validBits == 0 then 2 else 1) && AtLevel(air, crcUnit, f, c, start, sent, level + 1)
                && (more <==> level < |c.saks|) && (!more ==> uid.sak == c.saks[level - 1])
                && uid.uidByte[..] == Stored(old(uid.uidByte[..]), level, LevelBytes(c, level))
    {
      hide Alone, WithCrc, Stored, SelOf, AtLevel, LevelBytes;
      more := false;
      ghost var facing := NoneOrAll(uid, validBits, c) && Facing(f, c, start, level);
      if facing && validBits != 0 { AllKnown(c, level, uid.uidByte[..]); }
      var known := PrepareLevel(buffer, level, uid, validBits);
      var len, lastBits;
      status, len, lastBits := SelectLevel(buffer, known, f, c, start, level);
      if status != OK {
        return;
      }
      if facing {
        AtLevelParts(air, crcUnit, f, c, start, sent, level + 1);
        SakBytes(f, c.saks[level - 1], buffer[6..9]);
        AloneCrc(air, crcUnit, f, c, start, crcs, [buffer[6]]);
      }
      status, more := FinishLevel(buffer, level, uid, len, lastBits);
    }

    /** PICC_Select. `stack` is what the uninitialised buffer happens to hold. */
    method PiccSelect(uid: Uid, validBits: nat, stack: seq<byte>, ghost f: CrcA, ghost c: Card) returns (result: Status)
      requires uid.uidByte.Length == 10 && |stack| == 9
      modifies this, uid, uid.uidByte
      ensures validBits > 80 ==> result == INVALID && sent == old(sent)
      ensures |sent| <= |old(sent)| + 33 * 3
      ensures result == OK ==> uid.size in {4, 7, 10}
      ensures old(NoneOrAll(uid, validBits, c)) && Conforms(c) && Alone(air, crcUnit, f, c, old(sent)) ==>
                && |sent| == |old(sent)| + (if validBits == 0 then 2 else 1) * |c.saks|
                && result == OK && uid.size == |c.uid| && uid.sak == c.saks[|c.saks| - 1]
                && uid.uidByte[..uid.size] == Reported(c, old(uid.uidByte[..]))
    {
      hide Alone, Reported, Stored, LevelBytes, AtLevel;
      if validBits > 80 {
        return INVALID;
      }
      var buffer := new byte[9](i requires 0 <= i < 9 => stack[i]);
      ghost var start := sent;
      ghost var alone := NoneOrAll(uid, validBits, c) && Conforms(c) && Alone(air, crcUnit, f, c, start);
      ghost var was, per := uid.uidByte[..], if validBits == 0 then 2 else 1;
      var cascadeLevel := 1;
      var uidComplete := false;
      if alone { StartReport(c, was); StartLevel(air, crcUnit, f, c, start); }
      while !uidComplete
        invariant 1 <= cascadeLevel <= 4 && uid.uidByte.Length == 10 && fresh(buffer) && buffer.Length == 9
        invariant uidComplete ==> cascadeLevel <= 3
        invariant |sent| <= |old(sent)| + 33 * (if uidComplete then cascadeLevel else cascadeLevel - 1)
        invariant alone ==> Conforms(c) && cascadeLevel <= |c.saks|
        invariant alone ==> |sent| == |old(sent)| + per * (if uidComplete then cascadeLevel else cascadeLevel - 1)
        invariant alone ==> AtLevel(air, crcUnit, f, c, start, sent, if uidComplete then cascadeLevel + 1 else cascadeLevel)
        invariant alone ==> uid.uidByte[..] == StoredUpTo(c, was, if uidComplete then cascadeLevel else cascadeLevel - 1)
        invariant alone && !uidComplete ==> NoneOrAll(uid, validBits, c)
        invariant alone && uidComplete ==> cascadeLevel == |c.saks| && uid.sak == c.saks[|c.saks| - 1]
        decreases if uidComplete then 0 else 1, 4 - cascadeLevel
      {
        if cascadeLevel > 3 {
          return INTERNAL_ERROR;
        }
        var status, more := CascadeLevel(buffer, cascadeLevel, uid, validBits, f, c, start);
        if status != OK {
          return status;
        }
        if more {
          if alone && validBits != 0 { StillKnown(c, was, cascadeLevel); }
          cascadeLevel := cascadeLevel + 1;
        } else {
          uidComplete := true;
        }
      }
      uid.size := 3 * cascadeLevel + 1;
      if alone { FinalReport(c, was); }
      result := OK;
    }
  }

  /** The UID bytes after a level's four bytes have been copied: a leading cascade tag is left out. */
  function Stored(was: seq<byte>, level: nat, bytes: seq<byte>): (r: seq<byte>)
    requires |was| == 10 && |bytes| == 4 && 1 <= level <= 3
    ensures |r| == 10
  {
    var at := 3 * (level - 1);
    if bytes[0] == CT then was[..at] + bytes[1..] + was[at + 3..] else was[..at] + bytes + was[at + 4..]
  }

  lemma CopiedIsStored(now: seq<byte>, was: seq<byte>, level: nat, b: seq<byte>)
    requires |now| == |was| == 10 && |b| == 9 && 1 <= level <= 3
    requires var at, index, n := 3 * (level - 1), if b[2] == CT then 3 else 2, if b[2] == CT then 3 else 4;
             forall j :: 0 <= j < 10 ==> now[j] == if at <= j < at + n then b[index + j - at] else was[j]
    ensures now == Stored(was, level, b[2..6])
  {
    var at, r := 3 * (level - 1), Stored(was, level, b[2..6]);
    if b[2] == CT {
      assert b[2..6][1..] == b[3..6];
      assert forall j :: 0 <= j < 10 ==> r[j] == if at <= j < at + 3 then b[3 + j - at] else was[j];
    } else {
      assert forall j :: 0 <= j < 10 ==> r[j] == if at <= j < at + 4 then b[2 + j - at] else was[j];
    }
  }

  function StoredUpTo(c: Card, was: seq<byte>, level: nat): (r: seq<byte>)
    requires Conforms(c) && |was| == 10 && level <= |c.saks|
    ensures |r| == 10
  {
    if level == 0 then was else Stored(StoredUpTo(c, was, level - 1), level, LevelBytes(c, level))
  }

  /** What PICC_Select reports for a card on its own: its UID, unless the last level begins with the value of
      the cascade tag; then that byte is lost and the last byte is whatever it was. */
  function Reported(c: Card, was: seq<byte>): (r: seq<byte>)
    requires Conforms(c) && |was| == 10
  {
    var at := 3 * (|c.saks| - 1);
    if c.uid[at] != CT then c.uid else c.uid[..at] + c.uid[at + 1..] + [was[at + 3]]
  }

  /** A caller that knows the whole UID has every bit of every level. */
  lemma AllKnown(c: Card, level: nat, uid: seq<byte>)
    requires Conforms(c) && 1 <= level <= |c.saks| && |uid| == 10 && uid[..|c.uid|] == c.uid
    ensures KnownBits(level, |c.uid|, 8 * |c.uid|) >= 32
    ensures KnownBytes(level, |c.uid|, 8 * |c.uid|, uid) == LevelBytes(c, level)
  {
    var at := 3 * (level - 1);
    assert uid[..|c.uid|][at..at + 3] == uid[at..at + 3] == c.uid[at..at + 3];
    assert uid[..|c.uid|][at..at + 4] == uid[at..at + 4] == c.uid[at..at + 4];
  }

  /** The levels before the last store what was there. */
  lemma StillKnown(c: Card, was: seq<byte>, level: nat)
    requires Conforms(c) && |was| == 10 && was[..|c.uid|] == c.uid && level < |c.saks|
    ensures StoredUpTo(c, was, level)[..|c.uid|] == c.uid
  {
    hide StoredUpTo;
    TaggedLevels(c, was, level);
  }

  lemma SakBytes(f: CrcA, sak: byte, bytes: seq<byte>)
    requires bytes == WithCrc(f, [sak])
    ensures |bytes| == 3 && bytes[0] == sak && bytes[1] == f([sak]).0 && bytes[2] == f([sak]).1
  {
  }

  lemma StartReport(c: Card, was: seq<byte>)
    requires Conforms(c) && |was| == 10
    ensures StoredUpTo(c, was, 0) == was
  {
  }

  lemma {:induction false} StoredTagged(u: seq<byte>, was: seq<byte>, level: nat)
    requires |was| == 10 && 1 <= level <= 3 && 3 * level <= |u|
    ensures var at := 3 * (level - 1); Stored(u[..at] + was[at..], level, [CT] + u[at..at + 3]) == u[..at + 3] + was[at + 3..]
  {
    var at := 3 * (level - 1);
    var before := u[..at] + was[at..];
    assert before[..at] == u[..at] && before[at + 3..] == was[at + 3..];
    assert ([CT] + u[at..at + 3])[1..] == u[at..at + 3];
    assert u[..at] + u[at..at + 3] == u[..at + 3];
  }

  lemma {:induction false} StoredLast(u: seq<byte>, was: seq<byte>, level: nat)
    requires |was| == 10 && 1 <= level <= 3 && |u| == 3 * level + 1
    ensures var at := 3 * (level - 1);
            var r := Stored(u[..at] + was[at..], level, u[at..at + 4]);
            r[..|u|] == if u[at] == CT then u[..at] + u[at + 1..] + [was[at + 3]] else u
  {
    var at := 3 * (level - 1);
    var before, bytes := u[..at] + was[at..], u[at..at + 4];
    var r := Stored(before, level, bytes);
    assert before[..at] == u[..at];
    if u[at] == CT {
      assert bytes[1..] == u[at + 1..] && before[at + 3..] == was[at + 3..];
      assert r[..at + 3] == u[..at] + u[at + 1..];
      assert r[..at + 4] == r[..at + 3] + [was[at + 3]];
    } else {
      assert u[..at] + bytes == u;
      assert r[..at + 4] == u[..at] + bytes;
    }
  }

  /** After each announced level the bytes so far are the UID's, and the rest is untouched. */
  lemma {:induction false} TaggedLevels(c: Card, was: seq<byte>, level: nat)
    requires Conforms(c) && |was| == 10 && level < |c.saks|
    ensures StoredUpTo(c, was, level) == c.uid[..3 * level] + was[3 * level..]
  {
    hide Stored;
    if level > 0 {
      TaggedLevels(c, was, level - 1);
      StoredTagged(c.uid, was, level);
    } else {
      assert c.uid[..0] + was[0..] == was;
    }
  }

  lemma {:induction false} FinalReport(c: Card, was: seq<byte>)
    requires Conforms(c) && |was| == 10
    ensures StoredUpTo(c, was, |c.saks|)[..|c.uid|] == Reported(c, was)
  {
    hide Stored;
    TaggedLevels(c, was, |c.saks| - 1);
    StoredLast(c.uid, was, |c.saks|);
  }

  /** The report is right exactly when the last level does not begin with the cascade tag's value, or all
      its bytes and the byte that was there have that value. */
  lemma ReportedRight(c: Card, was: seq<byte>)
    requires Conforms(c) && |was| == 10
    ensures var at := 3 * (|c.saks| - 1);
            Reported(c, was) == c.uid <==>
            c.uid[at] != CT || (c.uid[at + 1] == c.uid[at + 2] == c.uid[at + 3] == was[at + 3] == CT)
  {
    var at := 3 * (|c.saks| - 1);
    if c.uid[at] == CT {
      var r := Reported(c, was);
      assert r[at] == c.uid[at + 1] && r[at + 1] == c.uid[at + 2] && r[at + 2] == c.uid[at + 3] && r[at + 3] == was[at + 3];
      assert forall j :: 0 <= j < at ==> r[j] == c.uid[j];
    }
  }

  /** The buffer byte in which the bit at collision position `pos` is set. */
  function BitByte(pos: nat): (index: nat) { 1 + pos / 8 + if (pos - 1) % 8 != 0 then 1 else 0 }

  /** Bits 8k+2 to 8k+7 of a level are set in their own byte; the first and the last bit of a byte are not. */
  lemma BitByteRight(pos: nat)
    requires 1 <= pos <= 32
    ensures BitByte(pos) == 2 + (pos - 1) / 8 <==> pos % 8 != 0 && pos % 8 != 1
  {
  }
}
