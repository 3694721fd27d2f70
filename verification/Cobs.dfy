/** Consistent Overhead Byte Stuffing (Cheshire and Baker) as the host (dev_handler/message.c) and the
    device (lowcar/devices/Device/Messenger.cpp) each wrote it. */
module Cobs {
  import opened Basics

  // ------------------------------------------------------------------ reference encoder

  /** The encoding of `src` when the current block already holds `block`. A block is emitted as its
      length plus one followed by its bytes; a zero byte or 254 data bytes end a block. */
  function EncodeFrom(src: seq<byte>, block: seq<byte>): (r: seq<byte>)
    requires |block| < 254
  {
    if src == [] then [|block| + 1] + block
    else if src[0] == 0 then [|block| + 1] + block + EncodeFrom(src[1..], [])
    else if |block| == 253 then [255] + block + [src[0]] + EncodeFrom(src[1..], [])
    else EncodeFrom(src[1..], block + [src[0]])
  }

  function Encode(src: seq<byte>): (r: seq<byte>) { EncodeFrom(src, []) }

  /** Number of full (0xFF) blocks emitted for `src` when `have` bytes are already in the block. */
  function FullBlocks(src: seq<byte>, have: nat): (n: nat)
    requires have < 254
  {
    if src == [] then 0
    else if src[0] == 0 then FullBlocks(src[1..], 0)
    else if have == 253 then 1 + FullBlocks(src[1..], 0)
    else FullBlocks(src[1..], have + 1)
  }

  // ------------------------------------------------------------------ reference decoder

  function Bytes(first: seq<byte>, rest: Option<seq<byte>>): (r: Option<seq<byte>>)
  {
    if rest.None? then None else Some(first + rest.value)
  }

  /** Length of the block that starts with code `code`, its code byte included (code 0 acts as 1). */
  function BlockLen(code: byte): (n: nat) { if code == 0 then 1 else code }

  /** Block-wise decoding; None is a block that runs past the end. The zero between two blocks is put
      back after every block when `host`, and after every block but a full one otherwise. */
  function Decode(src: seq<byte>, host: bool): (r: Option<seq<byte>>)
    decreases |src|
  {
    if src == [] then Some([])
    else
      var n := BlockLen(src[0]);
      if n > |src| then None
      else
        var zero := if n < |src| && (host || src[0] < 255) then [0] else [];
        Bytes(src[1..n] + zero, Decode(src[n..], host))
  }

  // ------------------------------------------------------------------ length and content of encodings

  lemma {:induction false} EncodeFromLength(src: seq<byte>, block: seq<byte>)
    requires |block| < 254
    ensures |EncodeFrom(src, block)| == |src| + |block| + 1 + FullBlocks(src, |block|)
    ensures 254 * FullBlocks(src, |block|) <= |src| + |block|
    decreases |src|
  {
    if src != [] {
      if src[0] == 0 || |block| == 253 {
        EncodeFromLength(src[1..], []);
      } else {
        EncodeFromLength(src[1..], block + [src[0]]);
      }
    }
  }

  /** An encoding of N bytes has exactly N + 1 + (number of full blocks) bytes, at most N + N/254 + 1. */
  lemma EncodeLength(src: seq<byte>)
    ensures |Encode(src)| == |src| + 1 + FullBlocks(src, 0)
    ensures |Encode(src)| <= |src| + |src| / 254 + 1
  {
    EncodeFromLength(src, []);
  }

  lemma {:induction false} EncodeFromNoZero(src: seq<byte>, block: seq<byte>)
    requires |block| < 254
    requires 0 !in block
    ensures 0 !in EncodeFrom(src, block)
    decreases |src|
  {
    if src != [] {
      if src[0] == 0 || |block| == 253 {
        EncodeFromNoZero(src[1..], []);
      } else {
        EncodeFromNoZero(src[1..], block + [src[0]]);
      }
    }
  }

  /** An encoding contains no zero byte, whatever is encoded. */
  lemma EncodeNoZero(src: seq<byte>)
    ensures 0 !in Encode(src)
  {
    EncodeFromNoZero(src, []);
  }

  // ------------------------------------------------------------------ block by block

  /** Non-zero bytes that fit are taken into the block. */
  lemma {:induction false} RunIntoBlock(run: seq<byte>, src: seq<byte>, block: seq<byte>)
    requires 0 !in run && |block| + |run| < 254
    ensures EncodeFrom(run + src, block) == EncodeFrom(src, block + run)
    decreases |run|
  {
    if run == [] {
      assert run + src == src && block + run == block;
    } else {
      assert (run + src)[0] == run[0] && (run + src)[1..] == run[1..] + src;
      RunIntoBlock(run[1..], src, block + [run[0]]);
      assert block + [run[0]] + run[1..] == block + run;
    }
  }

  /** The format of Cheshire and Baker, which these equations determine: a block is its length plus one and
      its bytes, the zero that ends it is left out, and 254 non-zero bytes make a block of their own. */
  lemma EncodeBlocks(run: seq<byte>, rest: seq<byte>)
    requires 0 !in run && |run| <= 254
    ensures |run| < 254 ==> Encode(run) == [|run| + 1] + run && Encode(run + [0] + rest) == [|run| + 1] + run + Encode(rest)
    ensures |run| == 254 ==> Encode(run + rest) == [255] + run + Encode(rest)
  {
    if |run| < 254 {
      RunIntoBlock(run, [], []);
      assert run + [] == run && [] + run == run;
      RunIntoBlock(run, [0] + rest, []);
      assert run + [0] + rest == run + ([0] + rest);
      assert ([0] + rest)[1..] == rest;
    } else {
      var most, last := run[..253], [run[253]] + rest;
      RunIntoBlock(most, last, []);
      assert run + rest == most + last && [] + most == most && last[1..] == rest;
      assert [255] + most + [run[253]] == [255] + run;
    }
  }

  // ------------------------------------------------------------------ round trips

  /** Decoding one whole block in front of an encoding. */
  lemma DecodeBlock(block: seq<byte>, rest: seq<byte>, host: bool)
    requires |block| < 255
    ensures Decode([|block| + 1] + block + rest, host) ==
            Bytes(block + (if rest != [] && (host || |block| < 254) then [0] else []), Decode(rest, host))
  {
    var s := [|block| + 1] + block + rest;
    assert s[1..|block| + 1] == block && s[|block| + 1..] == rest;
  }

  /** Decoding block by block, which these equations determine: a block's bytes, whatever they are, and a zero in
      front of more, except behind the device's full blocks; a zero code byte is read as an empty block; a block
      that is cut short fails. */
  lemma DecodeBlocks(block: seq<byte>, rest: seq<byte>, code: byte, host: bool)
    requires |block| < 255
    ensures var d := Decode([|block| + 1] + block + rest, host);
            if rest == [] then d == Some(block)
            else if Decode(rest, host).None? then d == None
            else d == Some(block + (if |block| == 254 && !host then [] else [0]) + Decode(rest, host).value)
    ensures Decode([0] + rest, host) == Decode([1] + rest, host)
    ensures code as int > |block| + 1 ==> Decode([code] + block, host) == None
  {
    hide Decode;
    DecodeBlock(block, rest, host);
    NothingToDecode(host);
    assert block + [] + [] == block;
    ZeroCode(rest, host);
    if code as int > |block| + 1 { CutBlock(block, code, host); }
  }

  lemma NothingToDecode(host: bool)
    ensures Decode([], host) == Some([])
  {
  }

  lemma ZeroCode(rest: seq<byte>, host: bool)
    ensures Decode([0] + rest, host) == Decode([1] + rest, host)
  {
    var zero, one := [0] + rest, [1] + rest;
    assert zero[1..] == one[1..] && zero[1..1] == one[1..1];
  }

  lemma CutBlock(block: seq<byte>, code: byte, host: bool)
    requires code as int > |block| + 1
    ensures Decode([code] + block, host) == None
  {
  }

  /** Whatever the host decodes is one byte shorter than what came in. */
  lemma {:induction false} HostDecodedLength(src: seq<byte>)
    requires src != [] && Decode(src, true).Some?
    ensures |Decode(src, true).value| == |src| - 1
    decreases |src|
  {
    var n := BlockLen(src[0]);
    if n < |src| { HostDecodedLength(src[n..]); }
  }

  /** The data bytes of the block that `src[0]` ends. */
  function EndedBlock(src: seq<byte>, block: seq<byte>): (r: seq<byte>)
    requires |block| < 254 && src != [] && (src[0] == 0 || |block| == 253)
  {
    if src[0] == 0 then block else block + [src[0]]
  }

  lemma EncodeEndedBlock(src: seq<byte>, block: seq<byte>)
    requires |block| < 254 && src != [] && (src[0] == 0 || |block| == 253)
    ensures var b := EndedBlock(src, block); EncodeFrom(src, block) == [|b| + 1] + b + EncodeFrom(src[1..], [])
    ensures EncodeFrom(src[1..], []) != []
  {
    EncodeFromLength(src[1..], []);
    if src[0] != 0 {
      assert [255] + (block + [src[0]]) == [255] + block + [src[0]];
    }
  }

  /** Decoding peels the ended block off an encoding. */
  lemma DecodeEndedBlock(src: seq<byte>, block: seq<byte>, host: bool)
    requires |block| < 254 && src != [] && (src[0] == 0 || |block| == 253)
    ensures var b := EndedBlock(src, block);
            Decode(EncodeFrom(src, block), host) ==
            Bytes(b + (if host || |b| < 254 then [0] else []), Decode(EncodeFrom(src[1..], []), host))
  {
    EncodeEndedBlock(src, block);
    DecodeBlock(EndedBlock(src, block), EncodeFrom(src[1..], []), host);
  }

  lemma DecodeLastBlock(block: seq<byte>, host: bool)
    requires |block| < 254
    ensures Decode(EncodeFrom([], block), host) == Some(block)
  {
    DecodeBlock(block, [], host);
    assert [|block| + 1] + block + [] == EncodeFrom([], block);
    assert block + [] + [] == block;
  }

  lemma Rejoin(block: seq<byte>, src: seq<byte>)
    requires src != []
    ensures block + [src[0]] + src[1..] == block + src
    ensures block + [src[0]] + [] + ([] + src[1..]) == block + src
    ensures block + [src[0]] + ([] + src[1..]) == block + src
  {
  }

  /** What each decoder makes of an encoding: the host's puts in one extra byte per full block. */
  lemma {:induction false} DecodesFrom(src: seq<byte>, block: seq<byte>, host: bool)
    requires |block| < 254
    ensures var d := Decode(EncodeFrom(src, block), host);
            && d.Some?
            && |d.value| == |block| + |src| + (if host then FullBlocks(src, |block|) else 0)
            && (!host || FullBlocks(src, |block|) == 0 ==> d.value == block + src)
    decreases |src|
  {
    if src == [] {
      DecodeLastBlock(block, host);
      assert block + [] == block;
    } else if src[0] == 0 || |block| == 253 {
      DecodesFrom(src[1..], [], host);
      DecodeEndedBlock(src, block, host);
      Rejoin(block, src);
    } else {
      DecodesFrom(src[1..], block + [src[0]], host);
      Rejoin(block, src);
    }
  }

  /** The device's decoder undoes encoding for byte strings of every length and content. */
  lemma DeviceRoundTrip(src: seq<byte>)
    ensures Decode(Encode(src), false) == Some(src)
  {
    DecodesFrom(src, [], false);
    assert [] + src == src;
  }

  predicate NonZeroRunAt(src: seq<byte>, i: int)
  {
    0 <= i && i + 254 <= |src| && forall k :: i <= k < i + 254 ==> src[k] != 0
  }

  /** `src` holds 254 consecutive non-zero bytes. */
  ghost predicate HasLongRun(src: seq<byte>)
  {
    exists i :: NonZeroRunAt(src, i)
  }

  /** A run of non-zero bytes that completes the block under construction, or lies further on, makes
      the encoder emit a full block. */
  lemma {:induction false} RunFillsBlock(src: seq<byte>, have: nat, i: nat)
    requires have < 254
    requires NonZeroRunAt(src, i) || (254 - have <= |src| && forall k :: 0 <= k < 254 - have ==> src[k] != 0)
    ensures FullBlocks(src, have) > 0
    decreases |src|
  {
    var tail := src[1..];
    if src[0] == 0 {
      assert NonZeroRunAt(tail, i - 1);
      RunFillsBlock(tail, 0, i - 1);
    } else if have < 253 {
      if i > 0 && NonZeroRunAt(src, i) {
        assert NonZeroRunAt(tail, i - 1);
        RunFillsBlock(tail, have + 1, i - 1);
      } else {
        RunFillsBlock(tail, have + 1, 0);
      }
    }
  }

  lemma {:induction false} FullBlockNeedsRun(src: seq<byte>, have: nat)
    requires have < 254
    requires FullBlocks(src, have) > 0
    ensures HasLongRun(src) || (254 - have <= |src| && forall k :: 0 <= k < 254 - have ==> src[k] != 0)
    decreases |src|
  {
    var tail := src[1..];
    if src[0] == 0 {
      FullBlockNeedsRun(tail, 0);
      assert HasLongRun(tail) || NonZeroRunAt(tail, 0);
      LongRunInTail(src);
    } else if have < 253 {
      FullBlockNeedsRun(tail, have + 1);
      if HasLongRun(tail) {
        LongRunInTail(src);
      } else {
        assert forall k :: 1 <= k < 254 - have ==> src[k] == tail[k - 1];
      }
    }
  }

  lemma LongRunInTail(src: seq<byte>)
    requires src != [] && HasLongRun(src[1..])
    ensures HasLongRun(src)
  {
    var i :| NonZeroRunAt(src[1..], i);
    assert forall k :: i + 1 <= k < i + 255 ==> src[k] == src[1..][k - 1];
    assert NonZeroRunAt(src, i + 1);
  }

  /** A full block is emitted exactly for inputs with 254 consecutive non-zero bytes. */
  lemma FullBlocksIffLongRun(src: seq<byte>)
    ensures FullBlocks(src, 0) > 0 <==> HasLongRun(src)
  {
    if FullBlocks(src, 0) > 0 {
      FullBlockNeedsRun(src, 0);
      assert HasLongRun(src) || NonZeroRunAt(src, 0);
    } else if HasLongRun(src) {
      var i :| NonZeroRunAt(src, i);
      RunFillsBlock(src, 0, i);
    }
  }

  /** The host's decoder undoes encoding exactly for inputs without 254 consecutive non-zero bytes. */
  lemma HostRoundTrip(src: seq<byte>)
    ensures Decode(Encode(src), true) == Some(src) <==> !HasLongRun(src)
  {
    DecodesFrom(src, [], true);
    FullBlocksIffLongRun(src);
    assert [] + src == src;
  }

  // ------------------------------------------------------------------ the two decoders compared

  /** Decoding `src` meets a full block that is not the last one. */
  predicate InnerFullBlock(src: seq<byte>)
    decreases |src|
  {
    src != [] && BlockLen(src[0]) < |src| && (src[0] == 255 || InnerFullBlock(src[BlockLen(src[0])..]))
  }

  lemma {:induction false} DecodersCompared(src: seq<byte>)
    ensures Decode(src, true).None? <==> Decode(src, false).None?
    ensures Decode(src, true).Some? ==> |Decode(src, true).value| >= |Decode(src, false).value|
    ensures Decode(src, true).Some? && InnerFullBlock(src) ==> |Decode(src, true).value| > |Decode(src, false).value|
    ensures !InnerFullBlock(src) ==> Decode(src, true) == Decode(src, false)
    decreases |src|
  {
    if src != [] && BlockLen(src[0]) <= |src| {
      DecodersCompared(src[BlockLen(src[0])..]);
    }
  }

  /** On every input, malformed or not, the two decoders agree unless a full block is followed by more
      data and the input is well formed. */
  lemma DecodersAgree(src: seq<byte>)
    ensures Decode(src, true) == Decode(src, false) <==> (Decode(src, true).None? || !InnerFullBlock(src))
  {
    DecodersCompared(src);
  }

  // ------------------------------------------------------------------ the code

  /** Buffer `a` holds finished blocks from `off` to `block` and the data of the block under construction
      from `block + 1` to `d`; encoding `src[i..]` on top of them gives the encoding of `src`. */
  ghost predicate Encoding(a: seq<byte>, off: nat, block: nat, d: nat, src: seq<byte>, i: nat)
  {
    && off <= block < d <= |a| && d - block < 255 && i <= |src|
    && a[off..block] + EncodeFrom(src[i..], a[block + 1..d]) == Encode(src)
  }

  lemma EncodingStart(a: seq<byte>, off: nat, src: seq<byte>)
    requires off < |a|
    ensures Encoding(a, off, off, off + 1, src, 0)
  {
    assert src[0..] == src && a[off..off] + Encode(src) == Encode(src) && a[off + 1..off + 1] == [];
  }

  lemma EncodingRoom(a: seq<byte>, off: nat, block: nat, d: nat, src: seq<byte>, i: nat)
    requires Encoding(a, off, block, d, src, i)
    ensures off <= block < d <= |a| && d - block < 255
    ensures d + |src| - i <= off + |Encode(src)|
    ensures i < |src| && (src[i] == 0 || d - block == 254) ==> d + |src| - i <= off + |Encode(src)| - (if src[i] == 0 then 0 else 1)
  {
    EncodeFromLength(src[i..], a[block + 1..d]);
    if i < |src| {
      assert src[i..][1..] == src[i + 1..];
      EncodeFromLength(src[i + 1..], []);
    }
  }

  /** A byte that stays in the block. */
  lemma EncodingCopy(a: seq<byte>, off: nat, block: nat, d: nat, src: seq<byte>, i: nat)
    requires Encoding(a, off, block, d, src, i)
    requires i < |src| && src[i] != 0 && d - block < 254 && d < |a|
    ensures Encoding(a[d := src[i]], off, block, d + 1, src, i + 1)
  {
    var b := a[d := src[i]];
    assert b[off..block] == a[off..block] && b[block + 1..d + 1] == a[block + 1..d] + [src[i]];
    assert src[i..][1..] == src[i + 1..];
  }

  /** A zero byte ends the block: its length is filled in and a new block starts. */
  lemma EncodingZero(a: seq<byte>, off: nat, block: nat, d: nat, src: seq<byte>, i: nat)
    requires Encoding(a, off, block, d, src, i)
    requires i < |src| && src[i] == 0 && d < |a|
    ensures Encoding(a[block := d - block], off, d, d + 1, src, i + 1)
  {
    var b, cur := a[block := d - block], a[block + 1..d];
    EncodeEndedBlock(src[i..], cur);
    assert src[i..][1..] == src[i + 1..];
    var rest := EncodeFrom(src[i + 1..], []);
    assert b[off..d] == a[off..block] + ([d - block] + cur);
    assert a[off..block] + ([d - block] + cur) + rest == a[off..block] + ([d - block] + cur + rest);
    assert b[d + 1..d + 1] == [];
  }

  /** The 254th data byte ends the block as well. */
  lemma EncodingFull(a: seq<byte>, off: nat, block: nat, d: nat, src: seq<byte>, i: nat)
    requires Encoding(a, off, block, d, src, i)
    requires i < |src| && src[i] != 0 && d - block == 254 && d + 1 < |a|
    ensures Encoding(a[d := src[i]][block := 255], off, d + 1, d + 2, src, i + 1)
  {
    var b, cur := a[d := src[i]][block := 255], a[block + 1..d] + [src[i]];
    EncodeEndedBlock(src[i..], a[block + 1..d]);
    assert src[i..][1..] == src[i + 1..];
    var rest := EncodeFrom(src[i + 1..], []);
    assert b[off..d + 1] == a[off..block] + ([255] + cur);
    assert a[off..block] + ([255] + cur) + rest == a[off..block] + ([255] + cur + rest);
    assert b[d + 2..d + 2] == [];
  }

  /** The last block is finished like the others. */
  lemma EncodingLast(a: seq<byte>, off: nat, block: nat, d: nat, src: seq<byte>)
    requires Encoding(a, off, block, d, src, |src|)
    ensures off <= block < d <= |a| && d - block < 255
    ensures a[block := d - block][off..d] == Encode(src)
  {
    assert src[|src|..] == [];
    assert a[block := d - block][off..d] == a[off..block] + ([d - block] + a[block + 1..d]);
  }

  /** cobs_encode, which the host and the device write alike, filling `dst` from index `off` on. */
  method CobsEncode(dst: array<byte>, off: nat, src: seq<byte>) returns (dstLen: nat)
    requires off + |src| + |src| / 254 + 1 <= dst.Length
    modifies dst
    ensures dstLen == |Encode(src)| && off + dstLen <= dst.Length
    ensures dst[off..off + dstLen] == Encode(src)
    ensures dst[..off] == old(dst[..off])
  {
    hide Encoding, Encode;
    EncodeLength(src);
    var i, block, d, blockLen := 0, off, off + 1, 1;
    dstLen := 0;
    ghost var a := dst[..];
    EncodingStart(a, off, src);
    while i < |src|
      invariant 0 <= i <= |src| && dst[..] == a && a[..off] == old(dst[..off])
      invariant off <= block && d == block + blockLen && d == off + dstLen + 1
      invariant Encoding(a, off, block, d, src, i)
    {
      EncodingRoom(a, off, block, d, src, i);
      if src[i] == 0 {
        EncodingZero(a, off, block, d, src, i);
        dst[block], a := blockLen, a[block := blockLen];
        block, d, dstLen, blockLen := d, d + 1, dstLen + 1, 1;
      } else {
        ghost var b := a[d := src[i]];
        dst[d] := src[i];
        d, blockLen, dstLen := d + 1, blockLen + 1, dstLen + 1;
        if blockLen == 0xFF {
          EncodingFull(a, off, block, d - 1, src, i);
          dst[block], a := blockLen, b[block := blockLen];
          block, d, dstLen, blockLen := d, d + 1, dstLen + 1, 1;
        } else {
          EncodingCopy(a, off, block, d - 1, src, i);
          a := b;
        }
      }
      i := i + 1;
    }
    EncodingLast(a, off, block, d, src);
    dst[block], a := blockLen, a[block := blockLen];
    dstLen := dstLen + 1;
    assert dst[..] == a;
  }

  /** The bytes cobs_decode stores. A block that runs past the end is copied up to the end and then one
      byte further, `past` being the byte that follows `src` in memory. */
  function Stored(src: seq<byte>, past: byte, host: bool): (r: seq<byte>)
    decreases |src|
  {
    if src == [] then []
    else
      var n := BlockLen(src[0]);
      if n > |src| then src[1..] + [past]
      else
        var zero := if n < |src| && (host || src[0] < 255) then [0] else [];
        src[1..n] + zero + Stored(src[n..], past, host)
  }

  /** On every input at most `|src|` bytes are stored, and on well-formed input they are the decoding. */
  lemma {:induction false} StoredBytes(src: seq<byte>, past: byte, host: bool)
    ensures |Stored(src, past, host)| <= |src|
    ensures Decode(src, host).Some? ==> Stored(src, past, host) == Decode(src, host).value
    decreases |src|
  {
    if src != [] && BlockLen(src[0]) <= |src| {
      StoredBytes(src[BlockLen(src[0])..], past, host);
    }
  }

  /** With `out` stored so far and `rest` left, decoding ends as it does for `src`. */
  ghost predicate Decoding(src: seq<byte>, past: byte, host: bool, out: seq<byte>, rest: seq<byte>)
  {
    && out + Stored(rest, past, host) == Stored(src, past, host)
    && (Decode(rest, host).None? <==> Decode(src, host).None?)
  }

  lemma DecodingStart(src: seq<byte>, past: byte, host: bool)
    ensures Decoding(src, past, host, [], src[0..])
  {
    assert src[0..] == src && [] + Stored(src, past, host) == Stored(src, past, host);
  }

  /** What the inner loop of cobs_decode copies for the block whose code byte is `src[start]`. */
  function Copied(src: seq<byte>, past: byte, start: nat): (r: seq<byte>)
    requires start < |src|
  {
    var n := BlockLen(src[start]);
    if start + n <= |src| then src[start + 1..start + n] else src[start + 1..] + [past]
  }

  /** The zero cobs_decode puts back after the block whose code byte is `src[start]`. */
  function PutBack(src: seq<byte>, start: nat, host: bool): (r: seq<byte>)
    requires start < |src|
  {
    if start + BlockLen(src[start]) < |src| && (host || src[start] < 255) then [0] else []
  }

  /** The first block of what is left at `i`. */
  lemma {:induction false} BlockAt(src: seq<byte>, past: byte, host: bool, i: nat)
    requires i < |src|
    ensures var n := BlockLen(src[i]);
            if i + n <= |src| then
              && Stored(src[i..], past, host) == Copied(src, past, i) + PutBack(src, i, host) + Stored(src[i + n..], past, host)
              && (Decode(src[i..], host).None? <==> Decode(src[i + n..], host).None?)
            else Stored(src[i..], past, host) == Copied(src, past, i) && Decode(src[i..], host).None?
  {
    var n, rest := BlockLen(src[i]), src[i..];
    if i + n <= |src| {
      assert rest[n..] == src[i + n..] && rest[1..n] == Copied(src, past, i);
    } else {
      assert rest[1..] == src[i + 1..];
    }
  }

  /** One turn of the outer loop of cobs_decode. */
  lemma {:induction false} DecodingStep(src: seq<byte>, past: byte, host: bool, out: seq<byte>, i: nat)
    requires i < |src| && Decoding(src, past, host, out, src[i..])
    ensures i + BlockLen(src[i]) <= |src| ==>
              Decoding(src, past, host, out + Copied(src, past, i) + PutBack(src, i, host), src[i + BlockLen(src[i])..])
    ensures i + BlockLen(src[i]) > |src| ==>
              Decode(src, host).None? && Stored(src, past, host) == out + Copied(src, past, i)
  {
    hide Stored, Decode, Copied, PutBack;
    BlockAt(src, past, host, i);
    var n, c, z := BlockLen(src[i]), Copied(src, past, i), PutBack(src, i, host);
    if i + n <= |src| {
      var s := Stored(src[i + n..], past, host);
      assert out + (c + z + s) == out + c + z + s;
    }
  }

  lemma DecodingEnd(src: seq<byte>, past: byte, host: bool, out: seq<byte>)
    requires Decoding(src, past, host, out, [])
    ensures Stored(src, past, host) == out && Decode(src, host) == Some(out)
  {
    assert out + [] == out;
    StoredBytes(src, past, host);
  }

  /** Writing `c` right after `out` in a buffer that is `was` from there on. */
  lemma Splice(out: seq<byte>, c: seq<byte>, was: seq<byte>)
    requires |out| + |c| <= |was|
    ensures var a := out + was[|out|..];
            a[..|out|] + c + a[|out| + |c|..] == out + c + was[|out + c|..]
    ensures |c| == 1 ==> (out + was[|out|..])[|out| := c[0]] == out + c + was[|out + c|..]
  {
  }

  /** The inner loop of cobs_decode, copying to `dst[|out|]` on. */
  method CopyBlock(dst: array<byte>, src: seq<byte>, past: byte, start: nat, ghost out: seq<byte>, at: nat,
                   ghost was: seq<byte>) returns (ok: bool, i: nat)
    requires at == |out| <= start < |src| <= dst.Length == |was|
    requires dst[..] == out + was[|out|..]
    modifies dst
    ensures ok <==> start + BlockLen(src[start]) <= |src|
    ensures ok ==> i == start + BlockLen(src[start])
    ensures |out| + |Copied(src, past, start)| <= |src|
    ensures var now := out + Copied(src, past, start); dst[..] == now + was[|now|..]
  {
    var code := src[start];
    i := start + 1;
    var k, o := 1, at;
    ghost var now := out;
    while k < code
      invariant 1 <= k && (k <= code || k == 1)
      invariant i == start + k && i <= |src| && o == |now| == at + k - 1
      invariant now == out + src[start + 1..i]
      invariant dst[..] == now + was[|now|..]
    {
      var b: byte := if i < |src| then src[i] else past;
      Splice(now, [b], was);
      ghost var a := dst[..];
      dst[o] := b;
      assert dst[..] == a[o := b];
      now := now + [b];
      i, o := i + 1, o + 1;
      if i > |src| {
        assert now == out + Copied(src, past, start);
        return false, i;
      }
      k := k + 1;
    }
    return true, i;
  }

  lemma CopiedLength(src: seq<byte>, past: byte, start: nat)
    requires start < |src| && start + BlockLen(src[start]) <= |src|
    ensures |Copied(src, past, start)| == BlockLen(src[start]) - 1
  {
  }

  /** One turn of the outer loop: a block, and the zero behind it. */
  method DecodeTurn(dst: array<byte>, src: seq<byte>, past: byte, host: bool, start: nat, ghost out: seq<byte>, at: nat,
                    ghost was: seq<byte>) returns (ok: bool, i: nat, o: nat)
    requires at == |out| <= start < |src| <= dst.Length == |was|
    requires dst[..] == out + was[|out|..]
    modifies dst
    ensures ok <==> start + BlockLen(src[start]) <= |src|
    ensures ok ==> i == start + BlockLen(src[start])
    ensures var c := out + Copied(src, past, start);
            var now := if ok then c + PutBack(src, start, host) else c;
            |now| <= |src| && dst[..] == now + was[|now|..] && (ok ==> o == |now| <= i)
  {
    hide Copied;
    ok, i := CopyBlock(dst, src, past, start, out, at, was);
    o := at;
    if !ok {
      return;
    }
    CopiedLength(src, past, start);
    o := at + i - start - 1;
    ghost var c := out + Copied(src, past, start);
    if (host || src[start] < 0xFF) && i != |src| {
      Splice(c, [0], was);
      ghost var a := dst[..];
      dst[o] := 0;
      assert dst[..] == a[o := 0];
      o := o + 1;
    } else {
      assert c + [] == c;
    }
  }

  /** cobs_decode: the host's when `host`, the device's otherwise. */
  method CobsDecode(dst: array<byte>, src: seq<byte>, past: byte, host: bool) returns (outLen: nat)
    requires |src| <= dst.Length
    modifies dst
    ensures outLen == if Decode(src, host).None? then 0 else |Decode(src, host).value|
    ensures |Stored(src, past, host)| <= |src|
    ensures dst[..] == Stored(src, past, host) + old(dst[..])[|Stored(src, past, host)|..]
  {
    hide Decoding, Decode, Stored, Copied, PutBack;
    var i := 0;
    outLen := 0;
    ghost var out, was := [], dst[..];
    DecodingStart(src, past, host);
    StoredBytes(src, past, host);
    while i < |src|
      invariant 0 <= i <= |src| && outLen == |out| <= i
      invariant dst[..] == out + was[|out|..]
      invariant Decoding(src, past, host, out, src[i..])
    {
      DecodingStep(src, past, host, out, i);
      var start, ok := i, true;
      ok, i, outLen := DecodeTurn(dst, src, past, host, start, out, outLen, was);
      if !ok {
        return 0;
      }
      out := out + Copied(src, past, start) + PutBack(src, start, host);
    }
    assert src[i..] == [];
    DecodingEnd(src, past, host, out);
  }
}
