/** 32-bit words: wrapping sums, exclusive or and rotation, in arithmetic. */
module Words {
  import opened Arithmetic
  import opened Bytes

  const M: int := 0x1_0000_0000

  type word = x: int | 0 <= x < M

  function Add(x: word, y: word): word {
    if x as int + y as int < M then x as int + y as int else x as int + y as int - M
  }

  function Sub(x: word, y: word): word {
    if y <= x then x as int - y as int else x as int - y as int + M
  }

  lemma SubAdd(x: word, y: word)
    ensures Sub(Add(x, y), y) == x && Add(Sub(x, y), y) == x
  {
  }

  lemma AddZero(x: word)
    ensures Add(x, 0) == x && Add(0, x) == x
  {
  }

  function Pow2(n: nat): (p: nat)
    ensures p >= 1
  {
    if n == 0 then 1 else 2 * Pow2(n - 1)
  }

  lemma Pow2Of32()
    ensures Pow2(32) == M
  {
    assert Pow2(8) == 0x100;
    assert Pow2(16) == 0x1_0000;
    assert Pow2(24) == 0x100_0000;
  }

  /** Four bytes as a word, most significant first. */
  function OfBytes(b3: byte, b2: byte, b1: byte, b0: byte): word {
    ((b3 as int * 256 + b2 as int) * 256 + b1 as int) * 256 + b0 as int
  }

  lemma BytesOf(x: word) returns (b3: byte, b2: byte, b1: byte, b0: byte)
    ensures x == OfBytes(b3, b2, b1, b0)
    ensures b3 == x as int / 0x100_0000 && b2 == x as int / 0x1_0000 % 256 && b1 == x as int / 0x100 % 256 && b0 == x as int % 256
  {
    b3, b2, b1, b0 := x as int / 0x100_0000, x as int / 0x1_0000 % 256, x as int / 0x100 % 256, x as int % 256;
  }

  lemma BytesAre(b3: byte, b2: byte, b1: byte, b0: byte)
    ensures var x := OfBytes(b3, b2, b1, b0) as int;
      b3 == x / 0x100_0000 && b2 == x / 0x1_0000 % 256 && b1 == x / 0x100 % 256 && b0 == x % 256
  {
  }

  function XorByte(b: byte, c: byte): byte {
    ((b as bv8) ^ (c as bv8)) as int
  }

  /** Exclusive or, byte by byte. */
  function Xor(x: word, y: word): word {
    OfBytes(XorByte(x as int / 0x100_0000, y as int / 0x100_0000), XorByte(x as int / 0x1_0000 % 256, y as int / 0x1_0000 % 256),
            XorByte(x as int / 0x100 % 256, y as int / 0x100 % 256), XorByte(x as int % 256, y as int % 256))
  }

  lemma DigitsOfBits(x: nat, y: nat)
    requires x < 16 && y < 16
    ensures ((16 * x + y) as bv8) as int == 16 * x + y
  {
  }

  lemma ByteOfBits(b: int)
    requires 0 <= b < 256
    ensures (b as bv8) as int == b
  {
    DigitsOfBits(b / 16, b % 16);
    assert 16 * (b / 16) + b % 16 == b;
  }

  lemma BitsOfByte(v: bv8)
    ensures (v as int) as bv8 == v
  {
  }

  lemma BitsCancel(v: bv8, w: bv8)
    ensures (v ^ w) ^ w == v
  {
  }

  lemma XorByteTwice(b: byte, c: byte)
    ensures XorByte(XorByte(b, c), c) == b
  {
    BitsOfByte((b as bv8) ^ (c as bv8));
    BitsCancel(b as bv8, c as bv8);
    ByteOfBits(b);
  }

  lemma XorOfBytes(b3: byte, b2: byte, b1: byte, b0: byte, c3: byte, c2: byte, c1: byte, c0: byte)
    ensures Xor(OfBytes(b3, b2, b1, b0), OfBytes(c3, c2, c1, c0))
         == OfBytes(XorByte(b3, c3), XorByte(b2, c2), XorByte(b1, c1), XorByte(b0, c0))
  {
    BytesAre(b3, b2, b1, b0);
    BytesAre(c3, c2, c1, c0);
  }

  lemma XorXor(x: word, y: word)
    ensures Xor(Xor(x, y), y) == x
  {
    var b3, b2, b1, b0 := BytesOf(x);
    var c3, c2, c1, c0 := BytesOf(y);
    XorOfBytes(b3, b2, b1, b0, c3, c2, c1, c0);
    XorOfBytes(XorByte(b3, c3), XorByte(b2, c2), XorByte(b1, c1), XorByte(b0, c0), c3, c2, c1, c0);
    XorByteTwice(b3, c3); XorByteTwice(b2, c2); XorByteTwice(b1, c1); XorByteTwice(b0, c0);
  }

  /** One place to the left; the bit that falls out comes in on the right. */
  function RotOne(x: word): word {
    if 2 * x as int < M then 2 * x as int else 2 * x as int - M + 1
  }

  function Rot(x: word, k: nat): word {
    if k == 0 then x else RotOne(Rot(x, k - 1))
  }

  lemma {:induction false} Pow2Add(a: nat, b: nat)
    ensures Pow2(a + b) == Pow2(a) * Pow2(b)
  {
    if a > 0 { Pow2Add(a - 1, b); }
  }

  /** Rotating is the low bits shifted up, and the high bits shifted down into the gap. */
  lemma {:induction false} RotIsTwoShifts(x: word, k: nat)
    requires k <= 32
    ensures Rot(x, k) == (x % Pow2(32 - k)) * Pow2(k) + x / Pow2(32 - k)
  {
    Pow2Of32();
    if k > 0 {
      RotIsTwoShifts(x, k - 1);
      var p, q := Pow2(32 - k), Pow2(k - 1);
      assert Pow2(33 - k) == 2 * p && Pow2(k) == 2 * q;
      Pow2Add(32 - k, k);
      assert p * (2 * q) == M;
      RotStep(x, p, q, Rot(x, k - 1));
    }
  }

  lemma RotStep(x: word, p: nat, q: nat, y: word)
    requires p >= 1 && q >= 1 && p * (2 * q) == M
    requires y == (x % (2 * p)) * q + x / (2 * p)
    ensures RotOne(y) == (x % p) * (2 * q) + x / p
  {
    var h := x / (2 * p);
    var low, b := HalfDivision(x, p);
    assert (2 * p) * q == p * (2 * q);
    QuotientBound(x, 2 * p, q);
    RotWrap(h, low, b, p, q, y);
  }

  /** Dividing by half as much: one more bit of quotient, taken from the remainder. */
  lemma HalfDivision(x: nat, p: nat) returns (low: nat, b: nat)
    requires p >= 1
    ensures b <= 1 && low < p && x % (2 * p) == b * p + low && x % p == low && x / p == 2 * (x / (2 * p)) + b
  {
    var h, l := x / (2 * p), x % (2 * p);
    b := if l < p then 0 else 1;
    low := l - b * p;
    assert x == (2 * p) * h + l;
    assert p * (2 * h + b) == (2 * p) * h + b * p;
    DivModUnique(x, p, 2 * h + b, low);
  }

  /** Twice `y` loses its top bit, which comes back at the bottom. */
  lemma RotWrap(h: nat, low: nat, b: nat, p: nat, q: nat, y: word)
    requires b <= 1 && low < p && h < q && p * (2 * q) == M
    requires y == (b * p + low) * q + h
    ensures RotOne(y) == low * (2 * q) + (2 * h + b)
  {
    var u := low * (2 * q);
    assert 2 * ((b * p + low) * q) == b * (p * (2 * q)) + u;
    ProductGrows(low + 1, p, 2 * q);
    assert (low + 1) * (2 * q) == u + 2 * q;
  }

  lemma QuotientBound(x: nat, p: nat, q: nat)
    requires p >= 1 && x < p * q
    ensures x / p < q
  {
    if x / p >= q { ProductGrows(q, x / p, p); }
  }
}
