/** client/lib/sha1.c: streaming SHA-1, proved against sections 4 to 6.1 of RFC 3174. */
module Sha1 {
  import opened Types

  /** A word of section 3 of RFC 3174: `uint32_t`, with its own sums, shifts and bit operations. */
  type Word = bv32

  const TWO32 := 0x1_0000_0000

  function And(x: Word, y: Word): Word {
    x & y
  }

  function Or(x: Word, y: Word): Word {
    x | y
  }

  function Xor(x: Word, y: Word): Word {
    x ^ y
  }

  function Not(x: Word): Word {
    !x
  }

  // ---------------------------------------------------------- the specification

  datatype Words = Words(a: Word, b: Word, c: Word, d: Word, e: Word)

  const INITIAL := Words(0x67452301, 0xEFCDAB89, 0x98BADCFE, 0x10325476, 0xC3D2E1F0)

  /** `SHA1CircularShift`, by one, five or thirty bits. */
  function RotL1(x: Word): Word {
    (x << 1) | (x >> 31)
  }

  function RotL5(x: Word): Word {
    (x << 5) | (x >> 27)
  }

  function RotL30(x: Word): Word {
    (x << 30) | (x >> 2)
  }

  /** Section 5, the functions f(t;B,C,D). */
  function F(t: nat, b: Word, c: Word, d: Word): Word {
    if t < 20 then Choose(b, c, d)
    else if t < 40 then Parity(b, c, d)
    else if t < 60 then Majority(b, c, d)
    else Parity(b, c, d)
  }

  function Choose(b: Word, c: Word, d: Word): Word {
    Or(And(b, c), And(Not(b), d))
  }

  function Parity(b: Word, c: Word, d: Word): Word {
    Xor(Xor(b, c), d)
  }

  function Majority(b: Word, c: Word, d: Word): Word {
    Or(Or(And(b, c), And(b, d)), And(c, d))
  }

  /** Section 5, the constants K(t). */
  function K(t: nat): Word {
    if t < 20 then 0x5A827999 else if t < 40 then 0x6ED9EBA1 else if t < 60 then 0x8F1BBCDC else 0xCA62C1D6
  }

  /** Section 3: four octets make a word, most significant first. */
  function WordAt(block: seq<Byte>, t: nat): Word
    requires |block| == 64 && t < 16
  {
    ((((block[4 * t] as Word) << 24) | ((block[4 * t + 1] as Word) << 16)) | ((block[4 * t + 2] as Word) << 8))
    | (block[4 * t + 3] as Word)
  }

  /** Section 6.1 (a) and (b), the word sequence W. */
  ghost function W(block: seq<Byte>, t: nat): Word
    requires |block| == 64
  {
    if t < 16 then WordAt(block, t)
    else Mix(W(block, t - 3), W(block, t - 8), W(block, t - 14), W(block, t - 16))
  }

  function Mix(x: Word, y: Word, z: Word, u: Word): Word {
    RotL1(Xor(Xor(Xor(x, y), z), u))
  }

  /** Section 6.1 (d), one round. */
  function Round(s: Words, t: nat, w: Word): Words {
    Words(Total(RotL5(s.a), F(t, s.b, s.c, s.d), s.e, w, K(t)), s.a, RotL30(s.b), s.c, s.d)
  }

  function Total(rotated: Word, f: Word, e: Word, w: Word, k: Word): Word {
    rotated + f + e + w + k
  }

  ghost function Rounds(h: Words, block: seq<Byte>, t: nat): Words
    requires |block| == 64
  {
    if t == 0 then h else Round(Rounds(h, block, t - 1), t - 1, W(block, t - 1))
  }

  function Plus(x: Words, y: Words): Words {
    Words(x.a + y.a, x.b + y.b, x.c + y.c, x.d + y.d, x.e + y.e)
  }

  /** Section 6.1, the whole processing of one block. */
  ghost function Compress(h: Words, block: seq<Byte>): Words
    requires |block| == 64
  {
    Plus(h, Rounds(h, block, 80))
  }

  /** The blocks of `s` processed one after another. */
  ghost function HashBlocks(s: seq<Byte>): Words
    requires |s| % 64 == 0
  {
    if s == [] then INITIAL else Compress(HashBlocks(s[..|s| - 64]), s[|s| - 64..])
  }

  /** A 64-bit number as eight octets, most significant first. */
  function Octets64(n: nat): (s: seq<Byte>)
    ensures |s| == 8
  {
    Octets32(n / TWO32 % TWO32) + Octets32(n % TWO32)
  }

  function Octets32(n: nat): (s: seq<Byte>)
    ensures |s| == 4
  {
    [(n / 0x1000000 % 256) as Byte, (n / 0x10000 % 256) as Byte, (n / 0x100 % 256) as Byte, (n % 256) as Byte]
  }

  /** Section 4: a one, zeroes up to eight octets short of a block, and the length in bits. */
  ghost function Pad(m: seq<Byte>): (s: seq<Byte>)
    ensures |s| % 64 == 0
  {
    PadZeros(m);
    m + [0x80] + Zeros((119 - |m| % 64) % 64) + Octets64(8 * |m|)
  }

  function Zeros(n: nat): (s: seq<Byte>)
    ensures |s| == n
  {
    seq(n, _ => 0)
  }

  lemma PadZeros(m: seq<Byte>)
    ensures (|m| + 1 + (119 - |m| % 64) % 64 + 8) % 64 == 0
  {
  }

  /** A word as four octets, most significant first. */
  function WordOctets(x: Word): (s: seq<Byte>)
    ensures |s| == 4
  {
    [Octet(x >> 24), Octet(x >> 16), Octet(x >> 8), Octet(x)]
  }

  /** The cast to `uint8_t`. */
  function Octet(x: Word): Byte {
    ((x & 0xFF) as bv8) as Byte
  }

  function DigestOf(h: Words): (s: seq<Byte>)
    ensures |s| == 20
  {
    WordOctets(h.a) + WordOctets(h.b) + WordOctets(h.c) + WordOctets(h.d) + WordOctets(h.e)
  }

  ghost function Digest(m: seq<Byte>): (s: seq<Byte>)
    ensures |s| == 20
  {
    DigestOf(HashBlocks(Pad(m)))
  }

  // ------------------------------------------------------------ bit by bit

  /** Bit `i` of a word, counted from the least significant one. */
  predicate Bit(x: Word, i: bv5) {
    (x >> i) & 1 == 1
  }

  /** The shifts are circular: bit `i` moves up by the distance, modulo 32. */
  lemma RotateBits(x: Word, i: bv5)
    ensures Bit(RotL1(x), i + 1) <==> Bit(x, i)
    ensures Bit(RotL5(x), i + 5) <==> Bit(x, i)
    ensures Bit(RotL30(x), i + 30) <==> Bit(x, i)
  {
  }

  lemma AndBits(x: Word, y: Word, i: bv5)
    ensures Bit(And(x, y), i) <==> Bit(x, i) && Bit(y, i)
  {
    hide Bit;
    RawAndBits(x, y, i);
  }

  lemma RawAndBits(x: Word, y: Word, i: bv5)
    ensures Bit(x & y, i) <==> Bit(x, i) && Bit(y, i)
  {
  }

  lemma OrBits(x: Word, y: Word, i: bv5)
    ensures Bit(Or(x, y), i) <==> Bit(x, i) || Bit(y, i)
  {
    hide Bit;
    RawOrBits(x, y, i);
  }

  lemma RawOrBits(x: Word, y: Word, i: bv5)
    ensures Bit(x | y, i) <==> Bit(x, i) || Bit(y, i)
  {
  }

  lemma XorBits(x: Word, y: Word, i: bv5)
    ensures Bit(Xor(x, y), i) <==> Bit(x, i) != Bit(y, i)
  {
    hide Bit;
    RawXorBits(x, y, i);
  }

  lemma RawXorBits(x: Word, y: Word, i: bv5)
    ensures Bit(x ^ y, i) <==> (Bit(x, i) <==> !Bit(y, i))
  {
  }

  lemma NotBits(x: Word, i: bv5)
    ensures Bit(Not(x), i) == !Bit(x, i)
  {
  }

  /** Section 5 bit by bit: choose, parity and majority. */
  lemma FunctionBits(t: nat, b: Word, c: Word, d: Word, i: bv5)
    requires t < 80
    ensures t < 20 ==> (Bit(F(t, b, c, d), i) <==> if Bit(b, i) then Bit(c, i) else Bit(d, i))
    ensures 20 <= t < 40 || 60 <= t ==>
              (Bit(F(t, b, c, d), i) <==> (Bit(b, i) <==> Bit(c, i) <==> Bit(d, i)))
    ensures 40 <= t < 60 ==>
              (Bit(F(t, b, c, d), i) <==> if Bit(b, i) <==> Bit(c, i) then Bit(b, i) else Bit(d, i))
  {
    hide Bit, Choose, Parity, Majority;
    ChooseBits(b, c, d, i);
    SumBits(b, c, d, i);
    MajorityBits(b, c, d, i);
  }

  lemma ChooseBits(b: Word, c: Word, d: Word, i: bv5)
    ensures Bit(Choose(b, c, d), i) <==> if Bit(b, i) then Bit(c, i) else Bit(d, i)
  {
    hide Bit, And, Or, Xor, Not;
    NotBits(b, i);
    AndBits(b, c, i);
    AndBits(Not(b), d, i);
    OrBits(And(b, c), And(Not(b), d), i);
  }

  lemma SumBits(b: Word, c: Word, d: Word, i: bv5)
    ensures Bit(Parity(b, c, d), i) <==> (Bit(b, i) <==> Bit(c, i) <==> Bit(d, i))
  {
    hide Bit, And, Or, Xor, Not;
    XorBits(b, c, i);
    XorBits(Xor(b, c), d, i);
  }

  lemma MajorityBits(b: Word, c: Word, d: Word, i: bv5)
    ensures Bit(Majority(b, c, d), i) <==> if Bit(b, i) <==> Bit(c, i) then Bit(b, i) else Bit(d, i)
  {
    hide Bit, And, Or, Xor, Not;
    AndBits(b, c, i);
    AndBits(b, d, i);
    AndBits(c, d, i);
    OrBits(And(b, c), And(b, d), i);
    OrBits(Or(And(b, c), And(b, d)), And(c, d), i);
  }

  /** The constants are the square roots of 2, 3, 5 and 10, times 2^30 and rounded down. */
  lemma Roots(t: nat)
    requires t < 80
    ensures var k, n := K(t) as nat, if t < 20 then 2 else if t < 40 then 3 else if t < 60 then 5 else 10;
            k * k <= n * 0x1000_0000_0000_0000 < (k + 1) * (k + 1)
  {
  }

  /** The initial words, octet by octet from the low end: 0 to F counted up, then down, then
      pairwise down. */
  lemma InitialOctets()
    ensures WordOctets(INITIAL.a) == [0x67, 0x45, 0x23, 0x01] && WordOctets(INITIAL.b) == [0xEF, 0xCD, 0xAB, 0x89]
    ensures WordOctets(INITIAL.c) == [0x98, 0xBA, 0xDC, 0xFE] && WordOctets(INITIAL.d) == [0x10, 0x32, 0x54, 0x76]
    ensures WordOctets(INITIAL.e) == [0xC3, 0xD2, 0xE1, 0xF0]
  {
  }

  /** Section 6.1 (b) bit by bit: each later word is the parity of four earlier ones, moved up by
      one place. */
  lemma ScheduleBits(block: seq<Byte>, t: nat, i: bv5)
    requires |block| == 64 && 16 <= t
    ensures Bit(W(block, t), i + 1) ==
            ((Bit(W(block, t - 3), i) == Bit(W(block, t - 8), i)) !=
             (Bit(W(block, t - 14), i) == Bit(W(block, t - 16), i)))
  {
    hide WordAt, Mix, Bit;
    MixBits(W(block, t - 3), W(block, t - 8), W(block, t - 14), W(block, t - 16), i);
  }

  lemma MixBits(x: Word, y: Word, z: Word, u: Word, i: bv5)
    ensures Bit(Mix(x, y, z, u), i + 1) == ((Bit(x, i) == Bit(y, i)) != (Bit(z, i) == Bit(u, i)))
  {
    hide RotL1, Bit, And, Or, Xor, Not;
    RotateBits(Xor(Xor(Xor(x, y), z), u), i);
    XorBits(x, y, i);
    XorBits(Xor(x, y), z, i);
    XorBits(Xor(Xor(x, y), z), u, i);
  }

  // ------------------------------------------------------- padding is faithful

  /** A 32-bit number is determined by its four octets. */
  lemma Octets32Value(n: nat)
    requires n < TWO32
    ensures var s := Octets32(n);
            n == 0x1000000 * s[0] as nat + 0x10000 * s[1] as nat + 0x100 * s[2] as nat + s[3] as nat
  {
    assert n == n % 256 + 256 * (n / 256);
    assert n / 256 == n / 256 % 256 + 256 * (n / 65536);
    assert n / 65536 == n / 65536 % 256 + 256 * (n / 16777216);
  }

  lemma Octets64Injective(x: nat, y: nat)
    requires x < TWO64 && y < TWO64 && Octets64(x) == Octets64(y)
    ensures x == y
  {
    hide Octets32;
    assert Octets64(x)[..4] == Octets32(x / TWO32 % TWO32) && Octets64(x)[4..] == Octets32(x % TWO32);
    assert Octets64(y)[..4] == Octets32(y / TWO32 % TWO32) && Octets64(y)[4..] == Octets32(y % TWO32);
    Octets32Value(x / TWO32 % TWO32);
    Octets32Value(y / TWO32 % TWO32);
    Octets32Value(x % TWO32);
    Octets32Value(y % TWO32);
  }

  /** The value of eight octets, most significant first. */
  function Value64(s: seq<Byte>): nat
    requires |s| == 8
  {
    Value32(s[..4]) * TWO32 + Value32(s[4..])
  }

  function Value32(s: seq<Byte>): nat
    requires |s| == 4
  {
    0x1000000 * s[0] as nat + 0x10000 * s[1] as nat + 0x100 * s[2] as nat + s[3] as nat
  }

  /** Section 4 by positions: the message, a one bit, as few zero bits as possible, and the length
      of the message in bits. */
  lemma PadLayout(m: seq<Byte>)
    requires 8 * |m| < TWO64
    ensures var p := Pad(m);
            && |p| % 64 == 0 && |m| + 9 <= |p| < |m| + 73
            && p[..|m|] == m && p[|m|] == 0x80
            && (forall i :: |m| < i < |p| - 8 ==> p[i] == 0)
            && Value64(p[|p| - 8..]) == 8 * |m|
  {
    hide Octets64, Value64;
    PadZeros(m);
    var p := Pad(m);
    assert p[|p| - 8..] == Octets64(8 * |m|);
    LengthValue(8 * |m|);
  }

  lemma LengthValue(n: nat)
    requires n < TWO64
    ensures Value64(Octets64(n)) == n
  {
    hide Octets32, Value32;
    assert Octets64(n)[..4] == Octets32(n / TWO32 % TWO32) && Octets64(n)[4..] == Octets32(n % TWO32);
    OctetsValue(n / TWO32 % TWO32);
    OctetsValue(n % TWO32);
  }

  lemma OctetsValue(n: nat)
    requires n < TWO32
    ensures Value32(Octets32(n)) == n
  {
    Octets32Value(n);
  }

  /** Different messages never become the same padded message. */
  lemma PadInjective(m: seq<Byte>, n: seq<Byte>)
    requires 8 * |m| < TWO64 && 8 * |n| < TWO64 && Pad(m) == Pad(n)
    ensures m == n
  {
    hide Octets64;
    var p, q := Pad(m), Pad(n);
    assert p[|p| - 8..] == Octets64(8 * |m|) && q[|q| - 8..] == Octets64(8 * |n|);
    Octets64Injective(8 * |m|, 8 * |n|);
    assert m == p[..|m|] && n == q[..|n|];
  }

  // --------------------------------------------------------------- the context

  datatype Status = Success | InputTooLong | StateError

  class Context {
    var hash: Words
    var lengthLow: nat
    var lengthHigh: nat
    var index: nat
    const block: array<Byte>
    var computed: bool
    /** `Corrupted`: 1 is `shaInputTooLong` in all but name. */
    var corrupted: Status
    /** The octets taken in so far, and those of them in blocks already processed. */
    ghost var message: seq<Byte>
    ghost var hashed: seq<Byte>

    ghost predicate Valid()
      reads this, block
    {
      && block.Length == 64
      && (!computed && corrupted == Success ==> Open())
      && (computed && corrupted == Success ==> hash == HashBlocks(Pad(message)))
    }

    /** Ready for more input. */
    ghost predicate Open()
      reads this, block
      requires block.Length == 64
    {
      && lengthLow < TWO32 && lengthHigh < TWO32 && lengthHigh * TWO32 + lengthLow == 8 * |message|
      && Absorbed()
    }

    /** Full blocks are hashed, the rest of the message is in the block buffer. */
    ghost predicate Absorbed()
      reads this, block
      requires block.Length == 64
    {
      && index < 64 && |hashed| % 64 == 0
      && message == hashed + block[..index]
      && hash == HashBlocks(hashed)
    }

    /** `SHA1Init`. */
    constructor ()
      ensures Valid() && !computed && corrupted == Success && message == []
      ensures fresh(block)
    {
      hide HashBlocks, Pad;
      NoBlocks();
      lengthLow, lengthHigh, index := 0, 0, 0;
      hash := INITIAL;
      computed, corrupted := false, Success;
      block := new Byte[64](_ => 0);
      message, hashed := [], [];
    }

    /** `SHA1Update`: input after the digest was taken is an error that sticks; otherwise the
        octets extend the message, unless its length in bits reaches 2^64. */
    method Update(data: seq<Byte>) returns (status: Status)
      requires Valid()
      modifies this, block
      ensures Valid() && computed == old(computed)
      ensures data == [] ==> status == Success && message == old(message) && corrupted == old(corrupted)
      ensures data != [] && computed ==> status == corrupted == StateError
      ensures data != [] && !computed && old(corrupted) != Success ==> status == corrupted == old(corrupted)
      ensures data != [] && !computed && old(corrupted) == Success ==>
                status == Success &&
                if 8 * (|old(message)| + |data|) < TWO64 then corrupted == Success && message == old(message) + data
                else corrupted == InputTooLong
    {
      hide HashBlocks, Pad, Context.Open;
      if |data| == 0 {
        return Success;
      }
      if computed {
        corrupted := StateError;
        return StateError;
      }
      if corrupted != Success {
        return corrupted;
      }
      var i := 0;
      while i < |data| && corrupted == Success
        invariant i <= |data| && Valid() && !computed
        invariant if corrupted == Success then message == old(message) + data[..i]
                  else corrupted == InputTooLong && 8 * (|old(message)| + |data|) >= TWO64
      {
        TakeOctet(data[i]);
        i := i + 1;
      }
      assert data[..|data|] == data;
      LengthSoFar();
      return Success;
    }

    lemma LengthSoFar()
      requires Valid()
      ensures !computed && corrupted == Success ==> 8 * |message| < TWO64
    {
    }

    /** The body of the update loop. */
    method TakeOctet(octet: Byte)
      requires Valid() && !computed && corrupted == Success
      modifies this, block
      ensures Valid() && !computed
      ensures if 8 * (|old(message)| + 1) < TWO64 then corrupted == Success else corrupted == InputTooLong
      ensures message == old(message) + [octet]
    {
      hide HashBlocks, Pad;
      Store(octet);
      CountOctet(|message| - 1);
      if index == 64 {
        assert message == hashed + block[..];
        NextBlock();
      }
    }

    /** Add eight bits to the length, which is that of `n` octets. */
    method CountOctet(ghost n: nat)
      requires corrupted == Success && lengthLow < TWO32 && lengthHigh < TWO32
               && lengthHigh * TWO32 + lengthLow == 8 * n
      modifies this`lengthLow, this`lengthHigh, this`corrupted
      ensures if 8 * (n + 1) < TWO64
              then corrupted == Success && lengthLow < TWO32 && lengthHigh < TWO32
                  && lengthHigh * TWO32 + lengthLow == 8 * (n + 1)
              else corrupted == InputTooLong
    {
      Carry(lengthHigh, lengthLow, n);
      lengthLow := (lengthLow + 8) % TWO32;
      if lengthLow == 0 {
        lengthHigh := (lengthHigh + 1) % TWO32;
        if lengthHigh == 0 {
          corrupted := InputTooLong;
        }
      }
    }

    method Store(octet: Byte)
      requires block.Length == 64 && Absorbed()
      modifies this`index, this`message, block
      ensures index == old(index) + 1 && message == old(message) + [octet] == hashed + block[..index]
    {
      hide HashBlocks;
      block[index] := octet;
      index := index + 1;
      message := message + [octet];
    }

    /** `SHA1ProcessMessageBlock`. */
    method ProcessMessageBlock()
      requires block.Length == 64
      modifies this`hash, this`index
      ensures hash == Compress(old(hash), block[..]) && index == 0
    {
      hide F, K, WordAt, Plus, Round, W, Mix, RotL1, RotL5, RotL30;
      var words := WordSequence();
      var s := hash;
      s := TwentyRounds(words, s, 0);
      s := TwentyRounds(words, s, 20);
      s := TwentyRounds(words, s, 40);
      s := TwentyRounds(words, s, 60);
      hash := Plus(hash, s);
      index := 0;
    }

    /** The word sequence `W`. */
    method WordSequence() returns (words: array<Word>)
      requires block.Length == 64
      ensures fresh(words) && words.Length == 80
      ensures forall t :: 0 <= t < 80 ==> words[t] == W(block[..], t)
    {
      hide Mix, WordAt;
      words := new Word[80];
      for t := 0 to 16
        invariant forall k :: 0 <= k < t ==> words[k] == W(block[..], k)
      {
        words[t] := FourOctets(t);
      }
      for t := 16 to 80
        invariant forall k :: 0 <= k < t ==> words[k] == W(block[..], k)
      {
        words[t] := Mix(words[t - 3], words[t - 8], words[t - 14], words[t - 16]);
      }
    }

    /** One of the first sixteen words, shifted together octet by octet. */
    method FourOctets(t: nat) returns (w: Word)
      requires block.Length == 64 && t < 16
      ensures w == WordAt(block[..], t)
    {
      w := (block[t * 4] as Word) << 24;
      w := w | ((block[t * 4 + 1] as Word) << 16);
      w := w | ((block[t * 4 + 2] as Word) << 8);
      w := w | (block[t * 4 + 3] as Word);
    }

    /** One of the four loops over twenty rounds, which differ in function and constant. */
    method TwentyRounds(words: array<Word>, s: Words, from: nat) returns (r: Words)
      requires block.Length == 64 && words.Length == 80 && from in {0, 20, 40, 60}
      requires forall t :: 0 <= t < 80 ==> words[t] == W(block[..], t)
      requires s == Rounds(hash, block[..], from)
      ensures r == Rounds(hash, block[..], from + 20)
    {
      hide Round, RotL30, W;
      var a, b, c, d, e := s.a, s.b, s.c, s.d, s.e;
      for t := from to from + 20
        invariant Words(a, b, c, d, e) == Rounds(hash, block[..], t)
      {
        var temp := Sum(t, a, b, c, d, e, words[t]);
        RoundMoves(Words(a, b, c, d, e), t, words[t]);
        e := d;
        d := c;
        c := RotL30(b);
        b := a;
        a := temp;
      }
      r := Words(a, b, c, d, e);
    }

    /** The sum that a round begins with, as each of the four loops writes it. */
    method Sum(t: nat, a: Word, b: Word, c: Word, d: Word, e: Word, w: Word) returns (temp: Word)
      requires t < 80
      ensures temp == Round(Words(a, b, c, d, e), t, w).a
    {
      hide RotL5, RotL30, Total, Choose, Parity, Majority;
      if t < 20 {
        temp := Total(RotL5(a), Choose(b, c, d), e, w, 0x5A827999);
      } else if t < 40 {
        temp := Total(RotL5(a), Parity(b, c, d), e, w, 0x6ED9EBA1);
      } else if t < 60 {
        temp := Total(RotL5(a), Majority(b, c, d), e, w, 0x8F1BBCDC);
      } else {
        temp := Total(RotL5(a), Parity(b, c, d), e, w, 0xCA62C1D6);
      }
    }

    /** `SHA1PadMessage`: the padding takes one block, or two if the length does not fit. */
    method PadMessage()
      requires block.Length == 64 && Open() && 8 * |message| < TWO64
      modifies this`hash, this`index, this`hashed, block
      ensures hash == HashBlocks(Pad(message))
    {
      hide HashBlocks, Octets32, Octets64, Pad, Absorbed;
      ghost var start := PadToLength();
      StoreLength();
      assert block[..] == start + Octets64(8 * |message|);
      NextBlock();
    }

    /** The padding up to the length, the first of two blocks processed if there are two. */
    method PadToLength() returns (ghost start: seq<Byte>)
      requires block.Length == 64 && Absorbed()
      modifies this`hash, this`index, this`hashed, block
      ensures |hashed| % 64 == 0 && hash == HashBlocks(hashed) && block[..56] == start
      ensures Pad(message) == hashed + (start + Octets64(8 * |message|))
    {
      hide HashBlocks, Octets32, Octets64, Pad, Zeros;
      ghost var n, rest := index, block[..index];
      PadBlocks(hashed, rest);
      block[index] := 0x80;
      assert block[..index + 1] == rest + [0x80];
      if index > 55 {
        index := index + 1;
        FillZeros(64);
        assert block[..] == rest + [0x80] + Zeros(63 - n);
        NextBlock();
        FillZeros(56);
        assert block[..56] == [] + Zeros(56);
      } else {
        index := index + 1;
        FillZeros(56);
      }
      start := block[..56];
    }

    /** Process the full block. */
    method NextBlock()
      requires block.Length == 64 && |hashed| % 64 == 0 && hash == HashBlocks(hashed)
      modifies this`hash, this`index, this`hashed
      ensures hashed == old(hashed) + block[..] && |hashed| % 64 == 0 && hash == HashBlocks(hashed) && index == 0
    {
      hide Compress, HashBlocks;
      BlockDone(hashed, block[..], hashed + block[..]);
      ProcessMessageBlock();
      hashed := hashed + block[..];
    }

    /** The loops that fill the block with zeroes up to position `n`. */
    method FillZeros(n: nat)
      requires block.Length == 64 && index <= n <= 64
      modifies this`index, block
      ensures index == n && block[..n] == old(block[..index]) + Zeros(n - old(index))
    {
      ghost var from := index;
      while index < n
        invariant from <= index <= n
        invariant block[..index] == old(block[..index]) + Zeros(index - from)
      {
        block[index] := 0;
        index := index + 1;
      }
    }

    method StoreLength()
      requires block.Length == 64 && lengthHigh < TWO32 && lengthLow < TWO32
      modifies block
      ensures block[..] == old(block[..56]) + Octets64(lengthHigh * TWO32 + lengthLow)
    {
      LengthOctets(lengthHigh, lengthLow);
      hide Octets64;
      block[56] := (lengthHigh / 0x1000000 % 256) as Byte;
      block[57] := (lengthHigh / 0x10000 % 256) as Byte;
      block[58] := (lengthHigh / 0x100 % 256) as Byte;
      block[59] := (lengthHigh % 256) as Byte;
      block[60] := (lengthLow / 0x1000000 % 256) as Byte;
      block[61] := (lengthLow / 0x10000 % 256) as Byte;
      block[62] := (lengthLow / 0x100 % 256) as Byte;
      block[63] := (lengthLow % 256) as Byte;
      assert block[56..60] == Octets32(lengthHigh) && block[60..64] == Octets32(lengthLow);
      assert block[..] == block[..56] + block[56..60] + block[60..64];
    }

    /** `SHA1Final`: the digest of the message, however often it is asked for; or the error. */
    method Final() returns (status: Status, digest: seq<Byte>)
      requires Valid()
      modifies this, block
      ensures Valid() && message == old(message) && status == corrupted == old(corrupted)
      ensures status == Success ==> computed && digest == Digest(message)
    {
      hide HashBlocks, Pad;
      digest := [];
      if corrupted != Success {
        return corrupted, digest;
      }
      if !computed {
        PadMessage();
        for i := 0 to 64
          modifies block
        {
          block[i] := 0;
        }
        lengthLow, lengthHigh := 0, 0;
        computed := true;
      }
      digest := DigestOf(hash);
      return Success, digest;
    }
  }

  /** A round moves the other words along. */
  lemma RoundMoves(s: Words, t: nat, w: Word)
    ensures Round(s, t, w) == Words(Round(s, t, w).a, s.a, RotL30(s.b), s.c, s.d)
  {
  }

  lemma NoBlocks()
    ensures HashBlocks([]) == INITIAL
  {
  }

  lemma BlockDone(full: seq<Byte>, block: seq<Byte>, more: seq<Byte>)
    requires |full| % 64 == 0 && |block| == 64 && more == full + block
    ensures HashBlocks(more) == Compress(HashBlocks(full), block)
  {
    assert more[..|more| - 64] == full && more[|more| - 64..] == block;
  }

  /** The carry from the low to the high half of the length. */
  lemma Carry(high: nat, low: nat, n: nat)
    requires high < TWO32 && low < TWO32 && high * TWO32 + low == 8 * n
    ensures var l := (low + 8) % TWO32;
            var h := if l == 0 then (high + 1) % TWO32 else high;
            if l == 0 && h == 0 then 8 * (n + 1) == TWO64 else h * TWO32 + l == 8 * (n + 1) < TWO64
  {
    assert low % 8 == 0;
    assert low + 8 <= TWO32;
  }

  lemma LengthOctets(high: nat, low: nat)
    requires high < TWO32 && low < TWO32
    ensures Octets64(high * TWO32 + low) == Octets32(high) + Octets32(low)
  {
    hide Octets32;
    assert (high * TWO32 + low) / TWO32 == high;
  }

  /** The blocks of a padded message beyond the full ones: two if more than 55 octets are left
      over, because the length does not fit behind them, else one. */
  lemma PadBlocks(full: seq<Byte>, rest: seq<Byte>)
    requires |full| % 64 == 0 && |rest| < 64
    ensures var n, length := |rest|, Octets64(8 * |full + rest|);
            Pad(full + rest) == if n > 55 then full + (rest + [0x80] + Zeros(63 - n)) + ([] + Zeros(56) + length)
                                else full + (rest + [0x80] + Zeros(55 - n) + length)
  {
    hide Octets64;
    var n := |rest|;
    assert |full + rest| % 64 == n;
    if n > 55 {
      assert Zeros((119 - n) % 64) == Zeros(63 - n) + Zeros(56);
    }
  }

  /** `SHA1Buf`, whose length argument is 32 bits wide. */
  method Buf(data: seq<Byte>) returns (digest: seq<Byte>)
    requires |data| < TWO32
    ensures digest == Digest(data)
  {
    hide Pad, HashBlocks, DigestOf;
    var context := new Context();
    var status := context.Update(data);
    assert [] + data == data;
    status, digest := context.Final();
  }

  /** `SHA1File`: reading the file in pieces of any sizes gives the digest of the whole, as
      long as it has less than 2^64 bits. For a longer file the caller's buffer, `before`, is
      left as it was; the call reports success all the same. */
  method File(file: seq<Byte>, before: seq<Byte>) returns (status: Status, digest: seq<Byte>)
    ensures status == Success
    ensures digest == if 8 * |file| < TWO64 then Digest(file) else before
  {
    hide Pad, HashBlocks, DigestOf;
    var context := new Context();
    var pos := 0;
    while pos < |file|
      invariant pos <= |file| && context.Valid() && fresh(context) && fresh(context.block) && !context.computed
      invariant if context.corrupted == Success then context.message == file[..pos] && 8 * pos < TWO64
                else 8 * |file| >= TWO64
    {
      var bufLength: nat :| 0 < bufLength <= 5000 && pos + bufLength <= |file|;
      status := context.Update(file[pos..pos + bufLength]);
      assert file[..pos + bufLength] == file[..pos] + file[pos..pos + bufLength];
      pos := pos + bufLength;
    }
    assert file[..|file|] == file;
    status, digest := context.Final();
    if status != Success {
      digest := before;
    }
    status := Success;
  }
}
