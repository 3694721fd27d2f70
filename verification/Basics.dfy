/** Types shared by every part of the model: bytes, 32-bit bitmaps and 4-byte parameter values. */
module Basics {

  type byte = b: int | 0 <= b < 256

  const MAX_DEVICES: nat := 32
  const MAX_PARAMS: nat := 32

  /** A `uint32_t` used as a bitmap is the set of its on-bits, so `x & (1 << i)` is `i in x`,
      `x |= m` is `x + m`, `x &= ~m` is `x - m`, and `(x >> i) > 0` is `exists j :: j in x && i <= j`. */
  type Bitmap = s: set<nat> | forall i :: i in s ==> i < 32

  /** `(uint32_t) -1`. */
  const ALL_BITS: Bitmap := set i: nat | i < 32

  /** A `param_val_t`: a union of `int32_t`, `float` and `uint8_t`, that is, four opaque bytes of which
      a BOOL uses the first. */
  type Word = w: seq<byte> | |w| == 4 witness [0, 0, 0, 0]

  const ZERO_WORD: Word := [0, 0, 0, 0]

  /** The largest payload of a message: a bitmap and 32 four-byte parameters, on both sides of the wire. */
  const MAX_PAYLOAD_SIZE: nat := 132

  /** A `uint16_t` in memory, little-endian. */
  function Bytes16(n: nat): (r: seq<byte>)
    requires n < 0x10000
    ensures |r| == 2 && r[0] as int + 256 * r[1] as int == n
  {
    [n % 256, n / 256]
  }

  function Word16(lo: byte, hi: byte): (n: nat)
  {
    var l: int, h: int := lo, hi;
    l + 256 * h
  }

  datatype Option<+T> = None | Some(value: T)

  function PowerOfTwo(n: nat): (r: nat) { if n == 0 then 1 else 2 * PowerOfTwo(n - 1) }

  /** Exclusive or of the low `n` bits. */
  function XorBits(a: nat, b: nat, n: nat): (r: nat)
    ensures r < PowerOfTwo(n)
    decreases n
  {
    if n == 0 then 0 else (if a % 2 == b % 2 then 0 else 1) + 2 * XorBits(a / 2, b / 2, n - 1)
  }

  /** Bit `j` of `a`. */
  predicate OnIn(a: nat, j: nat) { if j == 0 then a % 2 == 1 else OnIn(a / 2, j - 1) }

  lemma Halves(b: nat, r: nat)
    requires b <= 1
    ensures (b + 2 * r) / 2 == r && (b + 2 * r) % 2 == b
  {
  }

  lemma OnInStep(b: nat, j: nat)
    ensures OnIn(b, j) == if j == 0 then b % 2 == 1 else OnIn(b / 2, j - 1)
  {
  }

  /** The `n`-bit number whose bit `j` is on exactly if `on(k + j)`. */
  function FromBits(on: nat -> bool, k: nat, n: nat): (r: nat)
    ensures r < PowerOfTwo(n)
    decreases n
  {
    if n == 0 then 0 else (if on(k) then 1 else 0) + 2 * FromBits(on, k + 1, n - 1)
  }

  lemma {:induction false} FromBitsOn(on: nat -> bool, k: nat, n: nat, j: nat)
    requires j < n
    ensures OnIn(FromBits(on, k, n), j) <==> on(k + j)
    decreases n
  {
    hide OnIn;
    Halves(if on(k) then 1 else 0, FromBits(on, k + 1, n - 1));
    OnInStep(FromBits(on, k, n), j);
    if j > 0 { FromBitsOn(on, k + 1, n - 1, j - 1); }
  }

  /** A byte given by its bits. */
  function ByteOf(on: nat -> bool): (b: byte)
  {
    assert PowerOfTwo(8) == 256;
    FromBits(on, 0, 8)
  }

  /** A bit of the exclusive or is on exactly where the operands differ. */
  lemma {:induction false} XorBitsOn(a: nat, b: nat, n: nat, j: nat)
    requires j < n
    ensures OnIn(XorBits(a, b, n), j) <==> OnIn(a, j) != OnIn(b, j)
    decreases n
  {
    hide OnIn;
    Halves(if a % 2 == b % 2 then 0 else 1, XorBits(a / 2, b / 2, n - 1));
    OnInStep(XorBits(a, b, n), j);
    OnInStep(a, j);
    OnInStep(b, j);
    if j > 0 { XorBitsOn(a / 2, b / 2, n - 1, j - 1); }
  }

  /** Exclusive or of two bytes. */
  function Xor(a: byte, b: byte): (r: byte)
  {
    assert PowerOfTwo(8) == 256;
    XorBits(a, b, 8)
  }

  lemma {:induction false} XorBitsInjective(a: nat, b: nat, c: nat, n: nat)
    requires b < PowerOfTwo(n) && c < PowerOfTwo(n) && XorBits(a, b, n) == XorBits(a, c, n)
    ensures b == c
    decreases n
  {
    if n > 0 { XorBitsInjective(a / 2, b / 2, c / 2, n - 1); }
  }

  lemma XorOn(a: byte, b: byte, j: nat)
    requires j < 8
    ensures OnIn(Xor(a, b), j) <==> OnIn(a, j) != OnIn(b, j)
  {
    hide OnIn;
    XorBitsOn(a, b, 8, j);
  }

  /** Changing one operand changes the exclusive or. */
  lemma XorInjective(a: byte, b: byte, c: byte)
    requires Xor(a, b) == Xor(a, c)
    ensures b == c
  {
    assert PowerOfTwo(8) == 256;
    XorBitsInjective(a, b, c, 8);
  }

  lemma {:induction false} XorBitsCommute(a: nat, b: nat, n: nat)
    ensures XorBits(a, b, n) == XorBits(b, a, n)
    decreases n
  {
    if n > 0 { XorBitsCommute(a / 2, b / 2, n - 1); }
  }

  lemma XorCommutes(a: byte, b: byte)
    ensures Xor(a, b) == Xor(b, a)
  {
    XorBitsCommute(a, b, 8);
  }
}
