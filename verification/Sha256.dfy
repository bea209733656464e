/** SHA-256 (kompilator/src/sha256.rs) against FIPS 180-4. */
module Sha256 {

  type Byte = x: int | 0 <= x < 256

  const WORDS: int := 0x1_0000_0000

  type Word = x: int | 0 <= x < WORDS

  const K: seq<Word> := [
    0x428a2f98, 0x71374491, 0xb5c0fbcf, 0xe9b5dba5, 0x3956c25b, 0x59f111f1, 0x923f82a4, 0xab1c5ed5,
    0xd807aa98, 0x12835b01, 0x243185be, 0x550c7dc3, 0x72be5d74, 0x80deb1fe, 0x9bdc06a7, 0xc19bf174,
    0xe49b69c1, 0xefbe4786, 0x0fc19dc6, 0x240ca1cc, 0x2de92c6f, 0x4a7484aa, 0x5cb0a9dc, 0x76f988da,
    0x983e5152, 0xa831c66d, 0xb00327c8, 0xbf597fc7, 0xc6e00bf3, 0xd5a79147, 0x06ca6351, 0x14292967,
    0x27b70a85, 0x2e1b2138, 0x4d2c6dfc, 0x53380d13, 0x650a7354, 0x766a0abb, 0x81c2c92e, 0x92722c85,
    0xa2bfe8a1, 0xa81a664b, 0xc24b8b70, 0xc76c51a3, 0xd192e819, 0xd6990624, 0xf40e3585, 0x106aa070,
    0x19a4c116, 0x1e376c08, 0x2748774c, 0x34b0bcb5, 0x391c0cb3, 0x4ed8aa4a, 0x5b9cca4f, 0x682e6ff3,
    0x748f82ee, 0x78a5636f, 0x84c87814, 0x8cc70208, 0x90befffa, 0xa4506ceb, 0xbef9a3f7, 0xc67178f2]

  /** The working variables, and the hash value between blocks. */
  datatype Words = Words(a: Word, b: Word, c: Word, d: Word, e: Word, f: Word, g: Word, h: Word)

  const INITIAL := Words(0x6a09e667, 0xbb67ae85, 0x3c6ef372, 0xa54ff53a, 0x510e527f, 0x9b05688c, 0x1f83d9ab, 0x5be0cd19)

  // ---------------------------------------------- words, sections 3.2 and 4.1.2

  /** Addition modulo 2^32. */
  function Plus(x: Word, y: Word): Word { (x + y) % WORDS }

  /** The low `n` bits that both words, or just one of them, have set. */
  function Both(x: nat, y: nat, n: nat): (r: nat)
    ensures n == 0 ==> r == 0
    ensures r < Power2(n)
  {
    if n == 0 then 0 else 2 * Both(x / 2, y / 2, n - 1) + (x % 2) * (y % 2)
  }

  function JustOne(x: nat, y: nat, n: nat): (r: nat)
    ensures r < Power2(n)
  {
    if n == 0 then 0 else 2 * JustOne(x / 2, y / 2, n - 1) + (x % 2 + y % 2) % 2
  }

  function Power2(n: nat): nat { if n == 0 then 1 else 2 * Power2(n - 1) }

  function And(x: Word, y: Word): Word { WordHas32Bits(); Both(x, y, 32) }
  function Xor(x: Word, y: Word): Word { WordHas32Bits(); JustOne(x, y, 32) }
  function Not(x: Word): Word { WORDS - 1 - x }

  lemma WordHas32Bits()
    ensures Power2(32) == WORDS
  {
    assert Power2(8) == 256;
    assert Power2(16) == 0x1_0000;
    assert Power2(24) == 0x100_0000;
  }

  /** The last bit comes first, `n` times. */
  function RotateRight(x: Word, n: nat): Word
    decreases n
  {
    if n == 0 then x else RotateRight(x / 2 + (x % 2) * 0x8000_0000, n - 1)
  }

  function ShiftRight(x: Word, n: nat): Word
    decreases n
  {
    if n == 0 then x else ShiftRight(x / 2, n - 1)
  }

  /** Bit `i` of a number, the lowest first. */
  function Bit(x: nat, i: nat): (b: nat)
    ensures b < 2
    decreases i
  {
    if i == 0 then x % 2 else Bit(x / 2, i - 1)
  }

  lemma {:induction false} BothBits(x: nat, y: nat, n: nat, i: nat)
    requires i < n
    ensures Bit(Both(x, y, n), i) == Bit(x, i) * Bit(y, i)
    decreases n
  {
    var high, low := Both(x / 2, y / 2, n - 1), (x % 2) * (y % 2);
    assert low == 0 || low == 1;
    assert Both(x, y, n) == 2 * high + low;
    assert (2 * high + low) / 2 == high && (2 * high + low) % 2 == low;
    if i > 0 {
      BothBits(x / 2, y / 2, n - 1, i - 1);
    }
  }

  lemma {:induction false} JustOneBits(x: nat, y: nat, n: nat, i: nat)
    requires i < n
    ensures Bit(JustOne(x, y, n), i) == (Bit(x, i) + Bit(y, i)) % 2
    decreases n
  {
    var high, low := JustOne(x / 2, y / 2, n - 1), (x % 2 + y % 2) % 2;
    assert JustOne(x, y, n) == 2 * high + low;
    assert (2 * high + low) / 2 == high && (2 * high + low) % 2 == low;
    if i > 0 {
      JustOneBits(x / 2, y / 2, n - 1, i - 1);
    }
  }

  lemma {:induction false} TopBit(x: nat, b: nat, k: nat, i: nat)
    requires x < Power2(k) && b < 2 && i <= k
    ensures Bit(x + b * Power2(k), i) == if i < k then Bit(x, i) else b
    decreases i
  {
    if k > 0 {
      var half := Power2(k - 1);
      assert b * Power2(k) == 2 * (b * half);
      if i > 0 {
        assert (x + 2 * (b * half)) / 2 == x / 2 + b * half;
        TopBit(x / 2, b, k - 1, i - 1);
      }
    }
  }

  /** A rotation moves each bit down by `n`, around the end. */
  lemma {:induction false} RotateRightBits(x: Word, n: nat, i: nat)
    requires i < 32
    ensures Bit(RotateRight(x, n), i) == Bit(x, (i + n) % 32)
    decreases n
  {
    if n > 0 {
      var once: Word := x / 2 + (x % 2) * 0x8000_0000;
      RotateRightBits(once, n - 1, i);
      RotatedOnce(x, (i + (n - 1)) % 32);
      Around(i, n);
    }
  }

  lemma RotatedOnce(x: Word, j: nat)
    requires j < 32
    ensures Bit(x / 2 + (x % 2) * 0x8000_0000, j) == Bit(x, (j + 1) % 32)
  {
    HalfWord();
    TopBit(x / 2, x % 2, 31, j);
  }

  lemma Around(i: nat, n: nat)
    requires n > 0
    ensures ((i + (n - 1)) % 32 + 1) % 32 == (i + n) % 32
  {
  }

  lemma HalfWord()
    ensures Power2(31) == 0x8000_0000
  {
    WordHas32Bits();
  }

  lemma {:induction false} ShiftRightBits(x: Word, n: nat, i: nat)
    ensures Bit(ShiftRight(x, n), i) == Bit(x, i + n)
    decreases n
  {
    if n > 0 {
      ShiftRightBits(x / 2, n - 1, i);
    }
  }

  lemma {:induction false} NotBits(x: nat, k: nat, i: nat)
    requires x < Power2(k) && i < k
    ensures Bit(Power2(k) - 1 - x, i) == 1 - Bit(x, i)
    decreases k
  {
    assert (Power2(k) - 1 - x) / 2 == Power2(k - 1) - 1 - x / 2;
    if i > 0 {
      NotBits(x / 2, k - 1, i - 1);
    }
  }

  /** What And, Xor and Not of two words mean, bit by bit. */
  lemma LogicBits(x: Word, y: Word, i: nat)
    requires i < 32
    ensures Bit(And(x, y), i) == Bit(x, i) * Bit(y, i)
    ensures Bit(Xor(x, y), i) == (Bit(x, i) + Bit(y, i)) % 2
    ensures Bit(Not(x), i) == 1 - Bit(x, i)
  {
    AndBits(x, y, i);
    XorBits(x, y, i);
    WordNotBits(x, i);
  }

  lemma AndBits(x: Word, y: Word, i: nat)
    requires i < 32
    ensures Bit(And(x, y), i) == Bit(x, i) * Bit(y, i)
  {
    BothBits(x, y, 32, i);
  }

  lemma XorBits(x: Word, y: Word, i: nat)
    requires i < 32
    ensures Bit(Xor(x, y), i) == (Bit(x, i) + Bit(y, i)) % 2
  {
    JustOneBits(x, y, 32, i);
  }

  lemma WordNotBits(x: Word, i: nat)
    requires i < 32
    ensures Bit(Not(x), i) == 1 - Bit(x, i)
  {
    WordHas32Bits();
    NotBits(x, 32, i);
  }

  function Ch(x: Word, y: Word, z: Word): Word { Xor(And(x, y), And(Not(x), z)) }
  function Maj(x: Word, y: Word, z: Word): Word { Xor(Xor(And(x, y), And(x, z)), And(y, z)) }
  function BigSigma0(x: Word): Word { Xor(Xor(RotateRight(x, 2), RotateRight(x, 13)), RotateRight(x, 22)) }
  function BigSigma1(x: Word): Word { Xor(Xor(RotateRight(x, 6), RotateRight(x, 11)), RotateRight(x, 25)) }
  function SmallSigma0(x: Word): Word { Xor(Xor(RotateRight(x, 7), RotateRight(x, 18)), ShiftRight(x, 3)) }
  function SmallSigma1(x: Word): Word { Xor(Xor(RotateRight(x, 17), RotateRight(x, 19)), ShiftRight(x, 10)) }

  // ------------------------------------------------------- section 5.1.1: padding

  /** The zero bytes between the one bit and the length. */
  function Zeros(n: nat): (k: nat)
    ensures (n + 1 + k) % 64 == 56
    ensures k < 64
  {
    (119 - n % 64) % 64
  }

  /** No fewer zeros reach the end of a block but for the length. */
  lemma ZerosAreLeast(n: nat, k: nat)
    requires (n + 1 + k) % 64 == 56
    ensures Zeros(n) <= k
  {
    var z := Zeros(n);
    var q, q' := (n + 1 + z) / 64, (n + 1 + k) / 64;
    assert n + 1 + z == 64 * q + 56 && n + 1 + k == 64 * q' + 56;
    assert z - k == 64 * (q - q');
  }

  /** `value` in `width` bytes, the most significant first. */
  function BigEndian(value: nat, width: nat): (bytes: seq<Byte>)
    ensures |bytes| == width
  {
    if width == 0 then [] else BigEndian(value / 256, width - 1) + [value % 256]
  }

  function Number(bytes: seq<Byte>): nat {
    if bytes == [] then 0 else Number(bytes[..|bytes| - 1]) * 256 + bytes[|bytes| - 1]
  }

  function Limit(width: nat): nat {
    if width == 0 then 1 else 256 * Limit(width - 1)
  }

  lemma {:induction false} BigEndianIsReadBack(value: nat, width: nat)
    requires value < Limit(width)
    ensures Number(BigEndian(value, width)) == value
    decreases width
  {
    if width > 0 {
      BigEndianIsReadBack(value / 256, width - 1);
      var bytes := BigEndian(value, width);
      assert bytes[..|bytes| - 1] == BigEndian(value / 256, width - 1);
    }
  }

  const TWO64: nat := 0x1_0000_0000_0000_0000

  /** The length in bits, in the 64 bits the program counts it in. */
  function Bits(n: nat): nat { (n % TWO64) * 8 % TWO64 }

  lemma WholeBlocks(n: nat)
    requires n % 64 == 56
    ensures (n + 8) % 64 == 0
  {
  }

  function Padded(message: seq<Byte>): (padded: seq<Byte>)
    ensures |padded| % 64 == 0
    ensures |padded| == |message| + 1 + Zeros(|message|) + 8
  {
    WholeBlocks(|message| + 1 + Zeros(|message|));
    message + [0x80] + seq(Zeros(|message|), i => 0) + BigEndian(Bits(|message|), 8)
  }

  lemma PaddedEnds(message: seq<Byte>)
    ensures var p := Padded(message);
      p[..|message|] == message && p[|p| - 8..] == BigEndian(Bits(|message|), 8)
  {
    var body := message + [0x80] + seq(Zeros(|message|), i => 0);
    assert Padded(message) == body + BigEndian(Bits(|message|), 8);
  }

  lemma EightBytes()
    ensures Limit(8) == TWO64
  {
    assert Limit(2) == 0x1_0000;
    assert Limit(4) == 0x1_0000_0000;
    assert Limit(6) == 0x1_0000_0000_0000;
  }

  lemma BitsTellTheLength(n: nat, m: nat)
    requires n < 0x2000_0000_0000_0000 && m < 0x2000_0000_0000_0000 && Bits(n) == Bits(m)
    ensures n == m
  {
    assert n % TWO64 == n && m % TWO64 == m;
    assert n * 8 % TWO64 == n * 8 && m * 8 % TWO64 == m * 8;
  }

  /** Two messages shorter than 2^61 bytes never have the same padding. */
  lemma PaddingIsInjective(a: seq<Byte>, b: seq<Byte>)
    requires |a| < 0x2000_0000_0000_0000 && |b| < 0x2000_0000_0000_0000 && Padded(a) == Padded(b)
    ensures a == b
  {
    PaddedEnds(a);
    PaddedEnds(b);
    EightBytes();
    BigEndianIsReadBack(Bits(|a|), 8);
    BigEndianIsReadBack(Bits(|b|), 8);
    BitsTellTheLength(|a|, |b|);
  }

  // --------------------------------------------- section 6.2.2: the computation

  function WordAt(block: seq<Byte>, t: nat): Word
    requires |block| == 64 && t < 16
  {
    var value: int := block[4 * t] as int * 0x100_0000 + block[4 * t + 1] as int * 0x1_0000
      + block[4 * t + 2] as int * 0x100 + block[4 * t + 3] as int;
    value
  }

  function Mix(w2: Word, w7: Word, w15: Word, w16: Word): Word {
    Plus(Plus(Plus(SmallSigma1(w2), w7), SmallSigma0(w15)), w16)
  }

  /** The message schedule. */
  function Schedule(block: seq<Byte>, t: nat): Word
    requires |block| == 64
  {
    if t < 16 then WordAt(block, t)
    else Mix(Schedule(block, t - 2), Schedule(block, t - 7), Schedule(block, t - 15), Schedule(block, t - 16))
  }

  /** One round: T1 and T2, and the shift of the working variables. */
  function Round(v: Words, k: Word, w: Word): Words {
    var t1 := Plus(Plus(Plus(Plus(v.h, BigSigma1(v.e)), Ch(v.e, v.f, v.g)), k), w);
    var t2 := Plus(BigSigma0(v.a), Maj(v.a, v.b, v.c));
    Words(Plus(t1, t2), v.a, v.b, v.c, Plus(v.d, t1), v.e, v.f, v.g)
  }

  /** The working variables after `t` rounds. */
  function Rounds(v: Words, block: seq<Byte>, t: nat): Words
    requires |block| == 64 && t <= |K|
  {
    if t == 0 then v else Round(Rounds(v, block, t - 1), K[t - 1], Schedule(block, t - 1))
  }

  function Add(v: Words, x: Words): Words {
    Words(Plus(v.a, x.a), Plus(v.b, x.b), Plus(v.c, x.c), Plus(v.d, x.d),
          Plus(v.e, x.e), Plus(v.f, x.f), Plus(v.g, x.g), Plus(v.h, x.h))
  }

  function Block(message: seq<Byte>, i: nat): (block: seq<Byte>)
    requires 64 * (i + 1) <= |message|
    ensures |block| == 64
  {
    message[64 * i..64 * (i + 1)]
  }

  /** The hash value after `n` blocks. */
  function Hash(message: seq<Byte>, n: nat): Words
    requires 64 * n <= |message|
  {
    if n == 0 then INITIAL
    else var v := Hash(message, n - 1); Add(v, Rounds(v, Block(message, n - 1), |K|))
  }

  const DIGITS := "0123456789abcdef"

  /** A number in `width` lowercase hexadecimal digits. */
  function Hexadecimal(x: nat, width: nat): (text: string)
    ensures |text| == width
  {
    if width == 0 then "" else Hexadecimal(x / 16, width - 1) + [DIGITS[x % 16]]
  }

  function Shown(v: Words): (text: string)
    ensures |text| == 64
  {
    Hexadecimal(v.a, 8) + Hexadecimal(v.b, 8) + Hexadecimal(v.c, 8) + Hexadecimal(v.d, 8)
    + Hexadecimal(v.e, 8) + Hexadecimal(v.f, 8) + Hexadecimal(v.g, 8) + Hexadecimal(v.h, 8)
  }

  // ------------------------------------------------------------ the program

  method Pad(bytes: seq<Byte>) returns (message: seq<Byte>)
    ensures message == Padded(bytes)
  {
    message := bytes + [0x80];
    ghost var k := 0;
    while |message| % 64 != 56
      invariant k <= Zeros(|bytes|) && message == bytes + [0x80] + seq(k, i => 0)
      decreases Zeros(|bytes|) - k
    {
      message := message + [0];
      k := k + 1;
      assert seq(k, i => 0) == seq(k - 1, i => 0) + [0];
    }
    ZerosAreLeast(|bytes|, k);
    message := message + BigEndian(Bits(|bytes|), 8);
  }

  /** The order in which four words are summed does not show. */
  lemma AnyOrder(a: Word, b: Word, c: Word, d: Word)
    ensures Plus(Plus(Plus(a, b), c), d) == Plus(Plus(Plus(d, c), b), a)
  {
    Sum(a, b, c, d);
    Sum(d, c, b, a);
    assert a + b + c + d == d + c + b + a;
  }

  lemma Sum(a: Word, b: Word, c: Word, d: Word)
    ensures Plus(Plus(Plus(a, b), c), d) == (a + b + c + d) % WORDS
  {
    Carry(a + b, c);
    Carry(a + b + c, d);
  }

  lemma Carry(x: nat, y: nat)
    ensures (x % WORDS + y) % WORDS == (x + y) % WORDS
  {
    var q := x / WORDS;
    var r := x % WORDS;
    assert x + y == WORDS * q + (r + y);
    Multiple(q, r + y);
  }

  lemma Multiple(q: nat, r: nat)
    ensures (WORDS * q + r) % WORDS == r % WORDS
  {
  }

  /** The schedule of a block, filled in place. */
  method Fill(block: seq<Byte>) returns (w: array<Word>)
    requires |block| == 64
    ensures fresh(w) && w.Length == 64 && forall t :: 0 <= t < 64 ==> w[t] == Schedule(block, t)
  {
    w := new Word[64];
    for i := 0 to 16
      invariant forall t :: 0 <= t < i ==> w[t] == Schedule(block, t)
    {
      w[i] := WordAt(block, i);
    }
    for i := 16 to 64
      invariant forall t :: 0 <= t < i ==> w[t] == Schedule(block, t)
    {
      var s0 := SmallSigma0(w[i - 15]);
      var s1 := SmallSigma1(w[i - 2]);
      AnyOrder(s1, w[i - 7], s0, w[i - 16]);
      w[i] := Plus(Plus(Plus(w[i - 16], s0), w[i - 7]), s1);
    }
  }

  /** Sixty-four rounds over eight variables. */
  method Compress(state: Words, block: seq<Byte>) returns (next: Words)
    requires |block| == 64
    ensures next == Add(state, Rounds(state, block, |K|))
  {
    var w := Fill(block);
    var Words(a, b, c, d, e, f, g, h) := state;
    for i := 0 to |K|
      invariant Words(a, b, c, d, e, f, g, h) == Rounds(state, block, i)
    {
      var s1 := BigSigma1(e);
      var choice := Ch(e, f, g);
      var t1 := Plus(Plus(Plus(Plus(h, s1), choice), K[i]), w[i]);
      var s0 := BigSigma0(a);
      var majority := Maj(a, b, c);
      var t2 := Plus(s0, majority);
      h := g;
      g := f;
      f := e;
      e := Plus(d, t1);
      d := c;
      c := b;
      b := a;
      a := Plus(t1, t2);
    }
    next := Add(state, Words(a, b, c, d, e, f, g, h));
  }

  method Digest(message: seq<Byte>) returns (state: Words)
    ensures state == Hash(message, |message| / 64)
  {
    state := INITIAL;
    var blocks := |message| / 64;
    for i := 0 to blocks
      invariant state == Hash(message, i)
    {
      var block := NextBlock(message, i);
      state := Compress(state, block);
    }
  }

  /** The `i`th of the whole blocks. */
  method NextBlock(message: seq<Byte>, i: nat) returns (block: seq<Byte>)
    requires i < |message| / 64
    ensures 64 * (i + 1) <= |message| && block == Block(message, i)
  {
    block := message[64 * i..64 * (i + 1)];
  }

  /** The whole computation, from the message to the digits of `Hash`. */
  method Hex(bytes: seq<Byte>) returns (text: string)
    ensures text == Shown(Hash(Padded(bytes), |Padded(bytes)| / 64))
  {
    var message := Pad(bytes);
    var state := Digest(message);
    text := Shown(state);
  }
}
