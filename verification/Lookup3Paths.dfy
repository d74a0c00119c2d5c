/** The ways the source walks over a key: by words, by half words, byte by byte.  Each keeps a pointer and a remaining
    length and has its own switch for the last block; all of them compute the one hash. */
module Lookup3Paths {
  import opened Arithmetic
  import opened Bytes
  import opened Words
  import opened Lookup3

  /** The memory holds the key and at least the rest of its last word: masked reads go that far. */
  predicate Holds(memory: seq<byte>, length: nat) {
    (length + 3) / 4 * 4 <= |memory|
  }

  function Load32(big: bool, memory: seq<byte>, at: nat): word
    requires at + 4 <= |memory|
  {
    WordOf(big, memory[at], memory[at + 1], memory[at + 2], memory[at + 3])
  }

  function Load16(memory: seq<byte>, at: nat): word
    requires at + 2 <= |memory|
  {
    memory[at] as int + 256 * (memory[at + 1] as int)
  }

  /** `x << 8`, `x << 16`, `x << 24` of a byte or half word, where nothing is lost. */
  function Shl(x: word, factor: nat): word
    requires x as int * factor < M
  {
    x as int * factor
  }

  /** `x & 0xff`, `x & 0xffff`, `x & 0xffffff`. */
  function Low(x: word, modulus: nat): word
    requires modulus > 0
  {
    x as int % modulus
  }

  /** `x & 0xffffff00`, `x & 0xffff0000`, `x & 0xff000000`. */
  function High(x: word, modulus: nat): word
    requires modulus > 0
  {
    x as int - x as int % modulus
  }

  /** The mask that goes with the number of bytes that belong to the key. */
  function Mask(big: bool, x: word, n: nat): word {
    match n {
      case 1 => if big then High(x, 0x100_0000) else Low(x, 0x100)
      case 2 => if big then High(x, 0x1_0000) else Low(x, 0x1_0000)
      case 3 => if big then High(x, 0x100) else Low(x, 0x100_0000)
      case _ => x
    }
  }

  lemma Remainder(x: int, modulus: int, d: int, m: int)
    requires modulus > 0 && x == modulus * d + m && 0 <= m < modulus
    ensures x % modulus == m
  {
    DivModUnique(x, modulus, d, m);
  }

  lemma MaskLittle(b0: byte, b1: byte, b2: byte, b3: byte)
    ensures var x := WordOf(false, b0, b1, b2, b3);
      Low(x, 0x100) == WordOf(false, b0, 0, 0, 0) && Low(x, 0x1_0000) == WordOf(false, b0, b1, 0, 0) &&
      Low(x, 0x100_0000) == WordOf(false, b0, b1, b2, 0)
  {
    var x: int := WordOf(false, b0, b1, b2, b3);
    Remainder(x, 0x100, b1 as int + 256 * (b2 as int + 256 * b3 as int), b0);
    Remainder(x, 0x1_0000, b2 as int + 256 * b3 as int, b0 as int + 256 * b1 as int);
    Remainder(x, 0x100_0000, b3, b0 as int + 256 * (b1 as int + 256 * b2 as int));
  }

  lemma MaskBig(b0: byte, b1: byte, b2: byte, b3: byte)
    ensures var x := WordOf(true, b0, b1, b2, b3);
      High(x, 0x100_0000) == WordOf(true, b0, 0, 0, 0) && High(x, 0x1_0000) == WordOf(true, b0, b1, 0, 0) &&
      High(x, 0x100) == WordOf(true, b0, b1, b2, 0)
  {
    var x: int := WordOf(true, b0, b1, b2, b3);
    Remainder(x, 0x100_0000, b0, (b1 as int * 256 + b2 as int) * 256 + b3 as int);
    Remainder(x, 0x1_0000, b0 as int * 256 + b1 as int, b2 as int * 256 + b3 as int);
    Remainder(x, 0x100, (b0 as int * 256 + b1 as int) * 256 + b2 as int, b3);
  }

  /** What the mask leaves of a word at the end of the key is the word as if zeros followed. */
  lemma WordByMask(big: bool, memory: seq<byte>, length: nat, at: nat)
    requires at < length <= |memory| && at + 4 <= |memory|
    ensures WordAt(big, memory[..length], at) == Mask(big, Load32(big, memory, at), length - at)
  {
    if big {
      MaskBig(memory[at], memory[at + 1], memory[at + 2], memory[at + 3]);
    } else {
      MaskLittle(memory[at], memory[at + 1], memory[at + 2], memory[at + 3]);
    }
  }

  lemma WordBeyond(big: bool, key: seq<byte>, at: nat)
    requires |key| <= at
    ensures WordAt(big, key, at) == 0
  {
  }

  /** One block, the last block, and no block, of the hash. */
  lemma DigestTurn(big: bool, key: seq<byte>, k: nat, s: Abc)
    requires k <= |key|
    ensures k == |key| ==> Digest(LOOKUP3, big, key, k, s) == s
    ensures k < |key| <= k + 12 ==> Digest(LOOKUP3, big, key, k, s) == Final(Absorb(big, s, key, k))
    ensures k + 12 < |key| ==> Digest(LOOKUP3, big, key, k, s) == Digest(LOOKUP3, big, key, k + 12, Mix(Absorb(big, s, key, k)))
  {
  }

  /** The switch on the last block: the partial word is masked, the words before it are whole. */
  method LastByWords(big: bool, memory: seq<byte>, k: nat, left: nat, s: Abc, ghost blocks: nat) returns (t: Abc)
    requires Holds(memory, k + left) && k == 12 * blocks && 0 < left <= 12 && k + left <= |memory|
    ensures t == Absorb(big, s, memory[..k + left], k)
  {
    ghost var key := memory[..k + left];
    var a, b, c := s.a, s.b, s.c;
    WordByMask(big, memory, k + left, k);
    if left > 8 {
      WordByMask(big, memory, k + left, k + 4);
      WordByMask(big, memory, k + left, k + 8);
      c := Add(c, Mask(big, Load32(big, memory, k + 8), left - 8));
      b := Add(b, Load32(big, memory, k + 4));
      a := Add(a, Load32(big, memory, k));
    } else if left > 4 {
      WordByMask(big, memory, k + left, k + 4);
      WordBeyond(big, key, k + 8);
      AddZero(s.c);
      b := Add(b, Mask(big, Load32(big, memory, k + 4), left - 4));
      a := Add(a, Load32(big, memory, k));
    } else {
      WordBeyond(big, key, k + 4);
      WordBeyond(big, key, k + 8);
      AddZero(s.b);
      AddZero(s.c);
      a := Add(a, Mask(big, Load32(big, memory, k), left));
    }
    t := Abc(a, b, c);
  }

  method MixWords(big: bool, memory: seq<byte>, length: nat, k: nat, s: Abc) returns (t: Abc)
    requires k + 12 < length <= |memory|
    ensures Digest(LOOKUP3, big, memory[..length], k, s) == Digest(LOOKUP3, big, memory[..length], k + 12, t)
  {
    WordByMask(big, memory, length, k); WordByMask(big, memory, length, k + 4); WordByMask(big, memory, length, k + 8);
    t := Mix(Abc(Add(s.a, Load32(big, memory, k)), Add(s.b, Load32(big, memory, k + 4)), Add(s.c, Load32(big, memory, k + 8))));
  }

  /** The aligned path of `hashlittle` and `hashlittle2`, and, on a big-endian machine, of `hashbig`.  What lies behind
      the key has no influence. */
  method HashByWords(big: bool, memory: seq<byte>, length: nat, start: Abc) returns (s: Abc)
    requires Holds(memory, length) && length <= |memory|
    ensures s == Digest(LOOKUP3, big, memory[..length], 0, start)
  {
    ghost var key := memory[..length];
    ghost var digest := Digest(LOOKUP3, big, key, 0, start);
    var k: nat, left: nat := 0, length;
    ghost var blocks := 0;
    s := start;
    while left > 12
      invariant k + left == length && k == 12 * blocks && Digest(LOOKUP3, big, key, k, s) == digest
    {
      s := MixWords(big, memory, length, k, s);
      left := left - 12;
      k := k + 12;
      blocks := blocks + 1;
    }
    DigestTurn(big, key, k, s);
    if left == 0 { return; }
    var t := LastByWords(big, memory, k, left, s, blocks);
    s := Final(t);
  }

  // ----- by half words -----

  function Pair(memory: seq<byte>, at: nat): word
    requires at + 4 <= |memory|
  {
    Add(Load16(memory, at), Shl(Load16(memory, at + 2), 0x1_0000))
  }

  /** A pair of half words, whole or partial, against the word. */
  lemma HalfFacts(key: seq<byte>, at: nat, x: word)
    ensures at + 4 <= |key| ==> WordAt(false, key, at) == Pair(key, at)
    ensures |key| <= at ==> WordAt(false, key, at) == 0
    ensures |key| == at + 3 ==> Add(x, WordAt(false, key, at)) == Add(Add(x, Shl(key[at + 2], 0x1_0000)), Load16(key, at))
    ensures |key| == at + 2 ==> WordAt(false, key, at) == Load16(key, at)
    ensures |key| == at + 1 ==> WordAt(false, key, at) == key[at]
  {
  }

  method LastByHalves(key: seq<byte>, k: nat, left: nat, s: Abc) returns (t: Abc)
    requires k + left == |key| && 0 < left <= 12
    ensures t == Absorb(false, s, key, k)
  {
    HalfFacts(key, k, s.a); HalfFacts(key, k + 4, s.b); HalfFacts(key, k + 8, s.c);
    AddZero(s.b); AddZero(s.c);
    var a, b, c := s.a, s.b, s.c;
    match left {
      case 12 => c := Add(c, Pair(key, k + 8)); b := Add(b, Pair(key, k + 4)); a := Add(a, Pair(key, k));
      case 11 =>
        c := Add(c, Shl(key[k + 10], 0x1_0000));
        c := Add(c, Load16(key, k + 8)); b := Add(b, Pair(key, k + 4)); a := Add(a, Pair(key, k));
      case 10 => c := Add(c, Load16(key, k + 8)); b := Add(b, Pair(key, k + 4)); a := Add(a, Pair(key, k));
      case 9 =>
        c := Add(c, key[k + 8]);
        b := Add(b, Pair(key, k + 4)); a := Add(a, Pair(key, k));
      case 8 => b := Add(b, Pair(key, k + 4)); a := Add(a, Pair(key, k));
      case 7 =>
        b := Add(b, Shl(key[k + 6], 0x1_0000));
        b := Add(b, Load16(key, k + 4)); a := Add(a, Pair(key, k));
      case 6 => b := Add(b, Load16(key, k + 4)); a := Add(a, Pair(key, k));
      case 5 =>
        b := Add(b, key[k + 4]);
        a := Add(a, Pair(key, k));
      case 4 => a := Add(a, Pair(key, k));
      case 3 =>
        a := Add(a, Shl(key[k + 2], 0x1_0000));
        a := Add(a, Load16(key, k));
      case 2 => a := Add(a, Load16(key, k));
      case _ => a := Add(a, key[k]);
    }
    t := Abc(a, b, c);
  }

  method MixHalves(key: seq<byte>, k: nat, s: Abc) returns (t: Abc)
    requires k + 12 < |key|
    ensures Digest(LOOKUP3, false, key, k, s) == Digest(LOOKUP3, false, key, k + 12, t)
  {
    HalfFacts(key, k, s.a); HalfFacts(key, k + 4, s.b); HalfFacts(key, k + 8, s.c);
    t := Mix(Abc(Add(s.a, Pair(key, k)), Add(s.b, Pair(key, k + 4)), Add(s.c, Pair(key, k + 8))));
  }

  method HashByHalves(key: seq<byte>, start: Abc) returns (s: Abc)
    ensures s == Digest(LOOKUP3, false, key, 0, start)
  {
    ghost var digest := Digest(LOOKUP3, false, key, 0, start);
    var k: nat, left: nat := 0, |key|;
    s := start;
    while left > 12
      invariant k + left == |key| && Digest(LOOKUP3, false, key, k, s) == digest
    {
      s := MixHalves(key, k, s);
      left := left - 12;
      k := k + 12;
    }
    DigestTurn(false, key, k, s);
    if left == 0 { return; }
    var t := LastByHalves(key, k, left, s);
    s := Final(t);
  }

  // ----- byte by byte -----

  /** The four additions, in the order of a whole block. */
  function FourBytesAt(big: bool, x: word, key: seq<byte>, at: nat): word
    requires at + 4 <= |key|
  {
    var b0, b1, b2, b3 := key[at], key[at + 1], key[at + 2], key[at + 3];
    if big then Add(Add(Add(Add(x, Shl(b0, 0x100_0000)), Shl(b1, 0x1_0000)), Shl(b2, 0x100)), b3)
    else Add(Add(Add(Add(x, b0), Shl(b1, 0x100)), Shl(b2, 0x1_0000)), Shl(b3, 0x100_0000))
  }

  lemma FourBytesAreWord(big: bool, x: word, key: seq<byte>, at: nat)
    requires at + 4 <= |key|
    ensures FourBytesAt(big, x, key, at) == Add(x, WordAt(big, key, at))
  {
  }

  method MixBytes(big: bool, key: seq<byte>, k: nat, s: Abc) returns (t: Abc)
    requires k + 12 < |key|
    ensures Digest(LOOKUP3, big, key, k, s) == Digest(LOOKUP3, big, key, k + 12, t)
  {
    FourBytesAreWord(big, s.a, key, k); FourBytesAreWord(big, s.b, key, k + 4); FourBytesAreWord(big, s.c, key, k + 8);
    t := Mix(Abc(FourBytesAt(big, s.a, key, k), FourBytesAt(big, s.b, key, k + 4), FourBytesAt(big, s.c, key, k + 8)));
  }

  /** Four cases of the little-endian switch, entered at the `n`-th byte of a word: they fall through to the first. */
  method FallThroughLittle(key: seq<byte>, at: nat, n: nat, x: word) returns (y: word)
    requires 0 < n <= 4 && at + n <= |key| && (n < 4 ==> |key| == at + n)
    ensures y == Add(x, WordAt(false, key, at))
  {
    y := x;
    if n >= 4 { y := Add(y, Shl(key[at + 3], 0x100_0000)); }
    if n >= 3 { y := Add(y, Shl(key[at + 2], 0x1_0000)); }
    if n >= 2 { y := Add(y, Shl(key[at + 1], 0x100)); }
    y := Add(y, key[at]);
  }

  method FallThroughBig(key: seq<byte>, at: nat, n: nat, x: word) returns (y: word)
    requires 0 < n <= 4 && at + n <= |key| && (n < 4 ==> |key| == at + n)
    ensures y == Add(x, WordAt(true, key, at))
  {
    y := x;
    if n >= 4 { y := Add(y, key[at + 3]); }
    if n >= 3 { y := Add(y, Shl(key[at + 2], 0x100)); }
    if n >= 2 { y := Add(y, Shl(key[at + 1], 0x1_0000)); }
    y := Add(y, Shl(key[at], 0x100_0000));
  }

  method FallThrough(big: bool, key: seq<byte>, at: nat, n: nat, x: word) returns (y: word)
    requires 0 < n <= 4 && at + n <= |key| && (n < 4 ==> |key| == at + n)
    ensures y == Add(x, WordAt(big, key, at))
  {
    if big { y := FallThroughBig(key, at, n, x); } else { y := FallThroughLittle(key, at, n, x); }
  }

  /** The switch of the byte paths. */
  method LastByBytes(big: bool, key: seq<byte>, k: nat, left: nat, s: Abc) returns (t: Abc)
    requires k + left == |key| && 0 < left <= 12
    ensures t == Absorb(big, s, key, k)
  {
    var a, b, c := s.a, s.b, s.c;
    if left > 8 {
      c := FallThrough(big, key, k + 8, left - 8, c);
      b := FallThrough(big, key, k + 4, 4, b);
      a := FallThrough(big, key, k, 4, a);
    } else if left > 4 {
      WordBeyond(big, key, k + 8);
      AddZero(c);
      b := FallThrough(big, key, k + 4, left - 4, b);
      a := FallThrough(big, key, k, 4, a);
    } else {
      WordBeyond(big, key, k + 4);
      WordBeyond(big, key, k + 8);
      AddZero(b);
      AddZero(c);
      a := FallThrough(big, key, k, left, a);
    }
    t := Abc(a, b, c);
  }

  method HashByBytes(big: bool, key: seq<byte>, start: Abc) returns (s: Abc)
    ensures s == Digest(LOOKUP3, big, key, 0, start)
  {
    ghost var digest := Digest(LOOKUP3, big, key, 0, start);
    var k: nat, left: nat := 0, |key|;
    s := start;
    while left > 12
      invariant k + left == |key| && Digest(LOOKUP3, big, key, k, s) == digest
    {
      s := MixBytes(big, key, k, s);
      left := left - 12;
      k := k + 12;
    }
    DigestTurn(big, key, k, s);
    if left == 0 { return; }
    var t := LastByBytes(big, key, k, left, s);
    s := Final(t);
  }

  // ----- the entry points -----

  /** Whether whole words may be read: the masked read of the last one needs the memory to reach to its end. */
  predicate ByWords(sameEndian: bool, address: nat, memory: seq<byte>, length: nat) {
    sameEndian && address % 4 == 0 ==> Holds(memory, length)
  }

  /** The loops and switches shared by `hashlittle` and `hashlittle2`: the machine and the alignment of the key pick one. */
  method DigestLittle(littleEndian: bool, address: nat, memory: seq<byte>, length: nat, start: Abc) returns (s: Abc)
    requires length <= |memory| && ByWords(littleEndian, address, memory, length)
    ensures s == Digest(LOOKUP3, false, memory[..length], 0, start)
  {
    if littleEndian && address % 4 == 0 {
      s := HashByWords(false, memory, length, start);
    } else if littleEndian && address % 2 == 0 {
      s := HashByHalves(memory[..length], start);
    } else {
      s := HashByBytes(false, memory[..length], start);
    }
  }

  method HashLittle2At(littleEndian: bool, address: nat, memory: seq<byte>, length: nat, pc: word, pb: word)
    returns (primary: word, secondary: word)
    requires length <= |memory| && ByWords(littleEndian, address, memory, length)
    ensures (primary, secondary) == HashLittle2(memory[..length], pc, pb)
  {
    assert |memory[..length]| == length;
    var x := Start(Truncate(length), pc);
    var s := DigestLittle(littleEndian, address, memory, length, Abc(x, x, Add(x, pb)));
    primary, secondary := s.c, s.b;
  }

  method HashLittleAt(littleEndian: bool, address: nat, memory: seq<byte>, length: nat, initval: word) returns (h: word)
    requires length <= |memory| && ByWords(littleEndian, address, memory, length)
    ensures h == HashLittle(memory[..length], initval)
  {
    assert |memory[..length]| == length;
    var x := Start(Truncate(length), initval);
    var s := DigestLittle(littleEndian, address, memory, length, Abc(x, x, x));
    h := s.c;
  }

  method HashBigAt(bigEndian: bool, address: nat, memory: seq<byte>, length: nat, initval: word) returns (h: word)
    requires length <= |memory| && ByWords(bigEndian, address, memory, length)
    ensures h == HashBig(memory[..length], initval)
  {
    assert |memory[..length]| == length;
    var x := Start(Truncate(length), initval);
    var s := Abc(x, x, x);
    if bigEndian && address % 4 == 0 {
      s := HashByWords(true, memory, length, s);
    } else {
      s := HashByBytes(true, memory[..length], s);
    }
    h := s.c;
  }

  // ----- a key of words -----

  function WordBytes(big: bool, w: word): (b: seq<byte>)
    ensures |b| == 4 && WordOf(big, b[0], b[1], b[2], b[3]) == w
  {
    FourDigits(w);
    var b0, b1, b2, b3 := w as int % 256, w as int / 256 % 256, w as int / 256 / 256 % 256, w as int / 256 / 256 / 256;
    if big then [b3, b2, b1, b0] else [b0, b1, b2, b3]
  }

  function AsBytes(big: bool, words: seq<word>): (b: seq<byte>)
    ensures |b| == 4 * |words|
  {
    if words == [] then [] else WordBytes(big, words[0]) + AsBytes(big, words[1..])
  }

  lemma {:induction false} WordAtWords(big: bool, words: seq<word>, i: nat)
    ensures WordAt(big, AsBytes(big, words), 4 * i) == if i < |words| then words[i] else 0
  {
    if words != [] && i > 0 {
      WordAtWords(big, words[1..], i - 1);
      var all, rest := AsBytes(big, words), AsBytes(big, words[1..]);
      assert ByteAt(all, 4 * i) == ByteAt(rest, 4 * (i - 1));
      assert ByteAt(all, 4 * i + 1) == ByteAt(rest, 4 * (i - 1) + 1);
      assert ByteAt(all, 4 * i + 2) == ByteAt(rest, 4 * (i - 1) + 2);
      assert ByteAt(all, 4 * i + 3) == ByteAt(rest, 4 * (i - 1) + 3);
    }
  }

  lemma {:induction false} AbsorbWords(big: bool, words: seq<word>, i: nat, s: Abc)
    ensures Absorb(big, s, AsBytes(big, words), 4 * i) ==
      Abc(Add(s.a, if i < |words| then words[i] else 0), Add(s.b, if i + 1 < |words| then words[i + 1] else 0),
          Add(s.c, if i + 2 < |words| then words[i + 2] else 0))
  {
    WordAtWords(big, words, i); WordAtWords(big, words, i + 1); WordAtWords(big, words, i + 2);
    assert 4 * (i + 1) == 4 * i + 4 && 4 * (i + 2) == 4 * i + 8;
  }

  lemma DigestOfWords(big: bool, words: seq<word>, k: nat, s: Abc)
    requires k + 3 < |words|
    ensures Digest(LOOKUP3, big, AsBytes(big, words), 4 * k, s)
         == Digest(LOOKUP3, big, AsBytes(big, words), 4 * (k + 3), Mix(Abc(Add(s.a, words[k]), Add(s.b, words[k + 1]), Add(s.c, words[k + 2]))))
  {
    var t := Abc(Add(s.a, words[k]), Add(s.b, words[k + 1]), Add(s.c, words[k + 2]));
    AbsorbWords(big, words, k, s);
    DigestNext(LOOKUP3, big, AsBytes(big, words), 4 * k, 4 * (k + 3), s, t);
  }

  method MixThree(words: seq<word>, k: nat, s: Abc) returns (t: Abc)
    requires k + 3 < |words|
    ensures Digest(LOOKUP3, false, AsBytes(false, words), 4 * k, s) == Digest(LOOKUP3, false, AsBytes(false, words), 4 * (k + 3), t)
    ensures Digest(LOOKUP3, true, AsBytes(true, words), 4 * k, s) == Digest(LOOKUP3, true, AsBytes(true, words), 4 * (k + 3), t)
  {
    t := Mix(Abc(Add(s.a, words[k]), Add(s.b, words[k + 1]), Add(s.c, words[k + 2])));
    DigestOfWords(false, words, k, s);
    DigestOfWords(true, words, k, s);
  }

  /** The switch of `hashword`, entered with one to three words. */
  method LastWords(words: seq<word>, k: nat, s: Abc) returns (t: Abc)
    requires k < |words| <= k + 3
    ensures forall big | big in {false, true} :: t == Absorb(big, s, AsBytes(big, words), 4 * k)
  {
    AbsorbWords(false, words, k, s);
    AbsorbWords(true, words, k, s);
    AddZero(s.b);
    AddZero(s.c);
    var a, b, c := s.a, s.b, s.c;
    if |words| - k >= 3 { c := Add(c, words[k + 2]); }
    if |words| - k >= 2 { b := Add(b, words[k + 1]); }
    a := Add(a, words[k]);
    t := Abc(a, b, c);
  }

  /** `hashword` on words is `hashlittle` on their little-endian bytes and `hashbig` on their big-endian bytes. */
  method HashWord(words: seq<word>, initval: word) returns (h: word)
    ensures h == HashLittle(AsBytes(false, words), initval)
    ensures h == HashBig(AsBytes(true, words), initval)
  {
    ghost var little, large := AsBytes(false, words), AsBytes(true, words);
    ShiftedLength(|words|);
    var x := Start(4 * (Truncate(|words|) as int) % M, initval);
    var s := Abc(x, x, x);
    ghost var digests := (Digest(LOOKUP3, false, little, 0, s), Digest(LOOKUP3, true, large, 0, s));
    var k: nat, left: nat := 0, |words|;
    while left > 3
      invariant k + left == |words|
      invariant Digest(LOOKUP3, false, little, 4 * k, s) == digests.0 && Digest(LOOKUP3, true, large, 4 * k, s) == digests.1
    {
      s := MixThree(words, k, s);
      left := left - 3;
      k := k + 3;
    }
    DigestTurn(false, little, 4 * k, s);
    DigestTurn(true, large, 4 * k, s);
    if left > 0 {
      var t := LastWords(words, k, s);
      assert t == Absorb(false, s, little, 4 * k) && t == Absorb(true, s, large, 4 * k);
      s := Final(t);
    }
    h := s.c;
  }

  lemma ShiftedLength(n: nat)
    ensures (4 * (n % M)) % M == (4 * n) % M
  {
    var q, r := n / M, n % M;
    assert 4 * n == M * (4 * q) + 4 * r;
    var d, m := 4 * r / M, 4 * r % M;
    assert 4 * n == M * (4 * q + d) + m;
    DivModUnique(4 * n, M, 4 * q + d, m);
  }
}
