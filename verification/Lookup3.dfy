/** Jenkins' lookup3: the reversible mixers, and the hash of a byte string stated once. */
module Lookup3 {
  import opened Bytes
  import opened Words

  /** The internal state. */
  datatype Abc = Abc(a: word, b: word, c: word)

  // ----- the mixers and their inverses -----

  /** `x -= z; x ^= rot(z, k); z += y`: the new x and z. */
  function MixStep(x: word, y: word, z: word, k: nat): (word, word) {
    (Xor(Sub(x, z), Rot(z, k)), Add(z, y))
  }

  function UnmixStep(x: word, y: word, z: word, k: nat): (word, word) {
    var before := Sub(z, y);
    (Add(Xor(x, Rot(before, k)), before), before)
  }

  /** `x ^= z; x -= rot(z, k)`. */
  function FinalStep(x: word, z: word, k: nat): word {
    Sub(Xor(x, z), Rot(z, k))
  }

  function UnfinalStep(x: word, z: word, k: nat): word {
    Xor(Add(x, Rot(z, k)), z)
  }

  lemma MixStepInverse(x: word, y: word, z: word, k: nat)
    ensures var (x', z') := MixStep(x, y, z, k); UnmixStep(x', y, z', k) == (x, z)
    ensures var (x', z') := UnmixStep(x, y, z, k); MixStep(x', y, z', k) == (x, z)
  {
    SubAdd(z, y);
    SubAdd(x, z);
    XorXor(Sub(x, z), Rot(z, k));
    var before := Sub(z, y);
    SubAdd(Xor(x, Rot(before, k)), before);
    XorXor(x, Rot(before, k));
  }

  lemma FinalStepInverse(x: word, z: word, k: nat)
    ensures UnfinalStep(FinalStep(x, z, k), z, k) == x && FinalStep(UnfinalStep(x, z, k), z, k) == x
  {
    SubAdd(Xor(x, z), Rot(z, k));
    XorXor(x, z);
    XorXor(Add(x, Rot(z, k)), z);
    SubAdd(x, Rot(z, k));
  }

  function MixA(s: Abc, k: nat): Abc {
    var (a, c) := MixStep(s.a, s.b, s.c, k);
    Abc(a, s.b, c)
  }

  function MixB(s: Abc, k: nat): Abc {
    var (b, a) := MixStep(s.b, s.c, s.a, k);
    Abc(a, b, s.c)
  }

  function MixC(s: Abc, k: nat): Abc {
    var (c, b) := MixStep(s.c, s.a, s.b, k);
    Abc(s.a, b, c)
  }

  function UnmixA(s: Abc, k: nat): Abc {
    var (a, c) := UnmixStep(s.a, s.b, s.c, k);
    Abc(a, s.b, c)
  }

  function UnmixB(s: Abc, k: nat): Abc {
    var (b, a) := UnmixStep(s.b, s.c, s.a, k);
    Abc(a, b, s.c)
  }

  function UnmixC(s: Abc, k: nat): Abc {
    var (c, b) := UnmixStep(s.c, s.a, s.b, k);
    Abc(s.a, b, c)
  }

  function Mix(s: Abc): Abc {
    MixC(MixB(MixA(MixC(MixB(MixA(s, 4), 6), 8), 16), 19), 4)
  }

  function Unmix(s: Abc): Abc {
    UnmixA(UnmixB(UnmixC(UnmixA(UnmixB(UnmixC(s, 4), 19), 16), 8), 6), 4)
  }

  function Final(s: Abc): Abc {
    var c1 := FinalStep(s.c, s.b, 14);
    var a1 := FinalStep(s.a, c1, 11);
    var b1 := FinalStep(s.b, a1, 25);
    var c2 := FinalStep(c1, b1, 16);
    var a2 := FinalStep(a1, c2, 4);
    var b2 := FinalStep(b1, a2, 14);
    Abc(a2, b2, FinalStep(c2, b2, 24))
  }

  function Unfinal(s: Abc): Abc {
    var c2 := UnfinalStep(s.c, s.b, 24);
    var b1 := UnfinalStep(s.b, s.a, 14);
    var a1 := UnfinalStep(s.a, c2, 4);
    var c1 := UnfinalStep(c2, b1, 16);
    var b0 := UnfinalStep(b1, a1, 25);
    var a0 := UnfinalStep(a1, c1, 11);
    Abc(a0, b0, UnfinalStep(c1, b0, 14))
  }

  lemma MixRoundInverse(s: Abc, k: nat)
    ensures UnmixA(MixA(s, k), k) == s && MixA(UnmixA(s, k), k) == s
    ensures UnmixB(MixB(s, k), k) == s && MixB(UnmixB(s, k), k) == s
    ensures UnmixC(MixC(s, k), k) == s && MixC(UnmixC(s, k), k) == s
  {
    MixStepInverse(s.a, s.b, s.c, k);
    MixStepInverse(s.b, s.c, s.a, k);
    MixStepInverse(s.c, s.a, s.b, k);
  }

  /** `mix` is reversible. */
  lemma MixReversible(s: Abc)
    ensures Unmix(Mix(s)) == s && Mix(Unmix(s)) == s
  {
    var s1 := MixA(s, 4); var s2 := MixB(s1, 6); var s3 := MixC(s2, 8); var s4 := MixA(s3, 16); var s5 := MixB(s4, 19);
    MixRoundInverse(s, 4); MixRoundInverse(s1, 6); MixRoundInverse(s2, 8);
    MixRoundInverse(s3, 16); MixRoundInverse(s4, 19); MixRoundInverse(s5, 4);
    var t1 := UnmixC(s, 4); var t2 := UnmixB(t1, 19); var t3 := UnmixA(t2, 16); var t4 := UnmixC(t3, 8); var t5 := UnmixB(t4, 6);
    MixRoundInverse(t1, 19); MixRoundInverse(t2, 16); MixRoundInverse(t3, 8);
    MixRoundInverse(t4, 6); MixRoundInverse(t5, 4);
  }

  /** So is `final`. */
  lemma FinalReversible(s: Abc)
    ensures Unfinal(Final(s)) == s && Final(Unfinal(s)) == s
  {
    var c1 := FinalStep(s.c, s.b, 14); var a1 := FinalStep(s.a, c1, 11); var b1 := FinalStep(s.b, a1, 25);
    var c2 := FinalStep(c1, b1, 16); var a2 := FinalStep(a1, c2, 4); var b2 := FinalStep(b1, a2, 14);
    FinalStepInverse(s.c, s.b, 14); FinalStepInverse(s.a, c1, 11); FinalStepInverse(s.b, a1, 25);
    FinalStepInverse(c1, b1, 16); FinalStepInverse(a1, c2, 4); FinalStepInverse(b1, a2, 14);
    FinalStepInverse(c2, b2, 24);
    var z2 := UnfinalStep(s.c, s.b, 24); var y1 := UnfinalStep(s.b, s.a, 14); var x1 := UnfinalStep(s.a, z2, 4);
    var z1 := UnfinalStep(z2, y1, 16); var y0 := UnfinalStep(y1, x1, 25); var x0 := UnfinalStep(x1, z1, 11);
    FinalStepInverse(s.c, s.b, 24); FinalStepInverse(s.b, s.a, 14); FinalStepInverse(s.a, z2, 4);
    FinalStepInverse(z2, y1, 16); FinalStepInverse(y1, x1, 25); FinalStepInverse(x1, z1, 11);
    FinalStepInverse(z1, y0, 14);
  }

  // ----- the hash of a byte string -----

  /** Four bytes as a word, least or most significant byte first. */
  function WordOf(big: bool, b0: byte, b1: byte, b2: byte, b3: byte): word {
    if big then ((b0 as int * 256 + b1 as int) * 256 + b2 as int) * 256 + b3 as int
    else b0 as int + 256 * (b1 as int + 256 * (b2 as int + 256 * (b3 as int)))
  }

  function ByteAt(key: seq<byte>, i: nat): byte {
    if i < |key| then key[i] else 0
  }

  /** The word at a position, as if zeros followed the key. */
  function WordAt(big: bool, key: seq<byte>, i: nat): word {
    WordOf(big, ByteAt(key, i), ByteAt(key, i + 1), ByteAt(key, i + 2), ByteAt(key, i + 3))
  }

  function Absorb(big: bool, s: Abc, key: seq<byte>, i: nat): Abc {
    Abc(Add(s.a, WordAt(big, key, i)), Add(s.b, WordAt(big, key, i + 4)), Add(s.c, WordAt(big, key, i + 8)))
  }

  /** What is done to the state after a whole block, and after the last one. */
  datatype Mixers = Mixers(mix: Abc -> Abc, final: Abc -> Abc)

  const LOOKUP3: Mixers := Mixers(s => Mix(s), s => Final(s))

  const UNDO: Mixers := Mixers(s => Unmix(s), s => Unfinal(s))

  /** The state after the key from position `i` on: twelve bytes at a time, `final` for the last ones, nothing for none. */
  function Digest(m: Mixers, big: bool, key: seq<byte>, i: nat, s: Abc): Abc
    requires i <= |key|
    decreases |key| - i
  {
    if i == |key| then s
    else if i + 12 < |key| then Digest(m, big, key, i + 12, m.mix(Absorb(big, s, key, i)))
    else m.final(Absorb(big, s, key, i))
  }

  lemma DigestNext(m: Mixers, big: bool, key: seq<byte>, at: nat, next: nat, s: Abc, t: Abc)
    requires at + 12 == next < |key| && Absorb(big, s, key, at) == t
    ensures Digest(m, big, key, at, s) == Digest(m, big, key, next, m.mix(t))
  {
  }

  /** The conversion of a length to 32 bits. */
  function Truncate(n: nat): word {
    n % M
  }

  const SEED: word := 0xdead_beef

  function Start(length: word, initval: word): word {
    Add(Add(SEED, length), initval)
  }

  /** `hashlittle2`: the primary and the secondary hash. */
  function HashLittle2(key: seq<byte>, pc: word, pb: word): (word, word) {
    var x := Start(Truncate(|key|), pc);
    var s := Digest(LOOKUP3, false, key, 0, Abc(x, x, Add(x, pb)));
    (s.c, s.b)
  }

  function HashLittle(key: seq<byte>, initval: word): word {
    var x := Start(Truncate(|key|), initval);
    Digest(LOOKUP3, false, key, 0, Abc(x, x, x)).c
  }

  function HashBig(key: seq<byte>, initval: word): word {
    var x := Start(Truncate(|key|), initval);
    Digest(LOOKUP3, true, key, 0, Abc(x, x, x)).c
  }

  /** With no secondary seed the primary hash is `hashlittle`. */
  lemma SecondarySeedZero(key: seq<byte>, pc: word)
    ensures HashLittle2(key, pc, 0).0 == HashLittle(key, pc)
  {
    AddZero(Start(Truncate(|key|), pc));
  }

  // ----- a permutation of the state for every key -----

  function Shed(big: bool, s: Abc, key: seq<byte>, i: nat): Abc {
    Abc(Sub(s.a, WordAt(big, key, i)), Sub(s.b, WordAt(big, key, i + 4)), Sub(s.c, WordAt(big, key, i + 8)))
  }

  lemma AbsorbReversible(big: bool, s: Abc, key: seq<byte>, i: nat)
    ensures Shed(big, Absorb(big, s, key, i), key, i) == s && Absorb(big, Shed(big, s, key, i), key, i) == s
  {
    SubAdd(s.a, WordAt(big, key, i));
    SubAdd(s.b, WordAt(big, key, i + 4));
    SubAdd(s.c, WordAt(big, key, i + 8));
  }

  /** Runs the hash of the key from position `i` on backwards. */
  function Undigest(u: Mixers, big: bool, key: seq<byte>, i: nat, s: Abc): Abc
    requires i <= |key|
    decreases |key| - i
  {
    if i == |key| then s
    else if i + 12 < |key| then Shed(big, u.mix(Undigest(u, big, key, i + 12, s)), key, i)
    else Shed(big, u.final(s), key, i)
  }

  ghost predicate Inverse(m: Mixers, u: Mixers) {
    forall s: Abc :: u.mix(m.mix(s)) == s && m.mix(u.mix(s)) == s && u.final(m.final(s)) == s && m.final(u.final(s)) == s
  }

  lemma Lookup3IsReversible()
    ensures Inverse(LOOKUP3, UNDO)
  {
    forall s: Abc ensures UNDO.mix(LOOKUP3.mix(s)) == s && LOOKUP3.mix(UNDO.mix(s)) == s { MixReversible(s); }
    forall s: Abc ensures UNDO.final(LOOKUP3.final(s)) == s && LOOKUP3.final(UNDO.final(s)) == s { FinalReversible(s); }
  }

  lemma {:induction false} DigestReversibleFrom(m: Mixers, u: Mixers, big: bool, key: seq<byte>, i: nat, s: Abc)
    requires i <= |key| && Inverse(m, u)
    ensures Undigest(u, big, key, i, Digest(m, big, key, i, s)) == s
    ensures Digest(m, big, key, i, Undigest(u, big, key, i, s)) == s
    decreases |key| - i
  {
    AbsorbReversible(big, s, key, i);
    if i + 12 < |key| {
      DigestReversibleFrom(m, u, big, key, i + 12, m.mix(Absorb(big, s, key, i)));
      DigestReversibleFrom(m, u, big, key, i + 12, s);
      AbsorbReversible(big, u.mix(Undigest(u, big, key, i + 12, s)), key, i);
    } else {
      AbsorbReversible(big, u.final(s), key, i);
    }
  }

  /** For a fixed key, of any length, the map from the first state to the last is a permutation. */
  lemma DigestReversible(big: bool, key: seq<byte>, s: Abc)
    ensures Undigest(UNDO, big, key, 0, Digest(LOOKUP3, big, key, 0, s)) == s
    ensures Digest(LOOKUP3, big, key, 0, Undigest(UNDO, big, key, 0, s)) == s
  {
    Lookup3IsReversible();
    DigestReversibleFrom(LOOKUP3, UNDO, big, key, 0, s);
  }
}
