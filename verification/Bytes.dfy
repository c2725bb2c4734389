/** A byte and its eight bits. */
module ByteBits {

  newtype Byte = x: int | 0 <= x < 256

  /** The lowest k bits of a number, as the lowest bits of a word. */
  function Low(n: nat, k: nat): bv32
    decreases k
  {
    if k == 0 then 0 else OneMore(Low(n / 2, k - 1), n % 2 == 1)
  }

  function OneMore(w: bv32, bit: bool): bv32 { (w << 1) | (if bit then 1 else 0) }

  /** A word with the byte in its low bits. */
  function Bits(b: Byte): bv32 { Low(b as int, 8) }

  /** A word of k ones. */
  function Ones(k: nat): bv32
    decreases k
  {
    if k == 0 then 0 else OneMore(Ones(k - 1), true)
  }

  /** Nothing is set in the one word that is not set in the other. */
  predicate Within(w: bv32, mask: bv32) { w & mask == w }

  lemma MoreWithin(w: bv32, mask: bv32, bit: bool)
    requires Within(w, mask)
    ensures Within(OneMore(w, bit), OneMore(mask, true))
  {
  }

  lemma MoreDiffer(v: bv32, w: bv32, x: bool, y: bool)
    requires Within(v, 0x7f) && Within(w, 0x7f) && OneMore(v, x) == OneMore(w, y)
    ensures v == w && x == y
  {
  }

  lemma {:induction false} LowWithin(n: nat, k: nat)
    ensures Within(Low(n, k), Ones(k))
    decreases k
  {
    hide OneMore;
    if k == 0 {
      assert Within(0, 0);
    } else {
      LowWithin(n / 2, k - 1);
      hide Within;
      MoreWithin(Low(n / 2, k - 1), Ones(k - 1), n % 2 == 1);
    }
  }

  /** At most seven ones. */
  lemma {:induction false} OnesWithin(k: nat)
    requires k <= 7
    ensures Within(Ones(k), 0x7f)
  {
    assert Ones(1) == 1 && Ones(2) == 3 && Ones(3) == 7;
    assert Ones(4) == 0xf && Ones(5) == 0x1f && Ones(6) == 0x3f && Ones(7) == 0x7f;
  }

  lemma WithinTwice(u: bv32, v: bv32, w: bv32)
    requires Within(u, v) && Within(v, w)
    ensures Within(u, w)
  {
  }

  /** The number of numbers of k bits. */
  function Size(k: nat): nat { if k == 0 then 1 else 2 * Size(k - 1) }

  lemma {:induction false} LowDiffer(m: nat, n: nat, k: nat)
    requires k <= 8 && m < Size(k) && n < Size(k) && Low(m, k) == Low(n, k)
    ensures m == n
    decreases k
  {
    hide OneMore, Within;
    if k > 0 {
      LowWithin(m / 2, k - 1);
      LowWithin(n / 2, k - 1);
      OnesWithin(k - 1);
      WithinTwice(Low(m / 2, k - 1), Ones(k - 1), 0x7f);
      WithinTwice(Low(n / 2, k - 1), Ones(k - 1), 0x7f);
      MoreDiffer(Low(m / 2, k - 1), Low(n / 2, k - 1), m % 2 == 1, n % 2 == 1);
      LowDiffer(m / 2, n / 2, k - 1);
    }
  }

  /** Different bytes have different bits. */
  lemma BitsDiffer(x: Byte, y: Byte)
    ensures Bits(x) == Bits(y) ==> x == y
  {
    hide Low;
    assert Size(4) == 16 && Size(8) == 16 * Size(4);
    if Bits(x) == Bits(y) { LowDiffer(x as int, y as int, 8); }
  }
}

/** Bytes, the integers they spell in either byte order, and the checksum of a byte string. */
module Bytes {
  import B = ByteBits

  type Byte = B.Byte

  function Reversed<T>(s: seq<T>): (r: seq<T>)
    ensures |r| == |s| && forall i :: 0 <= i < |s| ==> r[i] == s[|s| - 1 - i]
  {
    seq(|s|, i requires 0 <= i < |s| => s[|s| - 1 - i])
  }

  lemma ReversedTwice<T>(s: seq<T>)
    ensures Reversed(Reversed(s)) == s
  {
  }

  function Power(n: nat): nat { if n == 0 then 1 else 256 * Power(n - 1) }

  /** The n low bytes of v, least significant first. */
  function Little(v: nat, n: nat): (r: seq<Byte>)
    ensures |r| == n
  {
    if n == 0 then [] else [(v % 256) as Byte] + Little(v / 256, n - 1)
  }

  function LittleValue(s: seq<Byte>): nat {
    if s == [] then 0 else s[0] as int + 256 * LittleValue(s[1..])
  }

  /** An unsigned integer as it lies in the memory of a host. */
  function Word(v: nat, n: nat, big: bool): (r: seq<Byte>)
    ensures |r| == n
  {
    if big then Reversed(Little(v, n)) else Little(v, n)
  }

  function WordValue(s: seq<Byte>, big: bool): nat {
    LittleValue(if big then Reversed(s) else s)
  }

  lemma {:induction false} LittleReads(v: nat, n: nat)
    requires v < Power(n)
    ensures LittleValue(Little(v, n)) == v
  {
    if n > 0 { LittleReads(v / 256, n - 1); }
  }

  lemma {:induction false} LittleBound(s: seq<Byte>)
    ensures LittleValue(s) < Power(|s|)
    decreases |s|
  {
    if s != [] { LittleBound(s[1..]); }
  }

  lemma {:induction false} LittleOf(s: seq<Byte>)
    ensures Little(LittleValue(s), |s|) == s
    decreases |s|
  {
    if s != [] {
      LittleOf(s[1..]);
      var v := LittleValue(s);
      assert v / 256 == LittleValue(s[1..]) && v % 256 == s[0] as int;
    }
  }

  /** A host reads back what it wrote, and every byte string is the writing of its value. */
  lemma WordReads(v: nat, n: nat, big: bool)
    requires v < Power(n)
    ensures WordValue(Word(v, n, big), big) == v
  {
    LittleReads(v, n);
    ReversedTwice(Little(v, n));
  }

  lemma WordOf(s: seq<Byte>, big: bool)
    ensures WordValue(s, big) < Power(|s|) && Word(WordValue(s, big), |s|, big) == s
  {
    LittleOf(if big then Reversed(s) else s);
    LittleBound(if big then Reversed(s) else s);
    ReversedTwice(s);
  }

  /** Reversing the bytes is the same as changing the byte order. */
  lemma SwapChangesOrder(s: seq<Byte>, big: bool)
    ensures WordValue(Reversed(s), !big) == WordValue(s, big)
  {
    ReversedTwice(s);
  }

  const TWO_TO_63: int := 0x8000_0000_0000_0000

  lemma EightBytes()
    ensures Power(8) == 2 * TWO_TO_63
  {
    assert Power(4) == 0x1_0000_0000;
    assert Power(8) == 256 * (256 * (256 * (256 * Power(4))));
  }

  // ---------------------------------------------------------------- checksum

  function CrcBit(c: bv32): bv32 { if c & 1 == 1 then (c >> 1) ^ 0xEDB88320 else c >> 1 }

  function CrcBits(c: bv32, n: nat): bv32
    decreases n
  {
    if n == 0 then c else CrcBits(CrcBit(c), n - 1)
  }

  /** The state with a byte in its low bits. */
  function Mixed(c: bv32, b: Byte): bv32 { c ^ B.Bits(b) }

  function CrcStep(c: bv32, b: Byte): bv32 { CrcBits(Mixed(c, b), 8) }

  /** The running state of a checksum after some more bytes. */
  function CrcFold(c: bv32, s: seq<Byte>): bv32
    decreases |s|
  {
    if s == [] then c else CrcFold(CrcStep(c, s[0]), s[1..])
  }

  const CRC_START: bv32 := 0xFFFF_FFFF

  function Checksum(s: seq<Byte>): bv32 { !CrcFold(CRC_START, s) }

  /** Adding data in pieces is adding it at once. */
  lemma {:induction false} CrcConcat(c: bv32, a: seq<Byte>, b: seq<Byte>)
    ensures CrcFold(c, a + b) == CrcFold(CrcFold(c, a), b)
    decreases |a|
  {
    if a == [] {
      assert a + b == b;
    } else {
      assert (a + b)[0] == a[0] && (a + b)[1..] == a[1..] + b;
      CrcConcat(CrcStep(c, a[0]), a[1..], b);
    }
  }

  lemma BitInjective(a: bv32, b: bv32)
    ensures CrcBit(a) == CrcBit(b) ==> a == b
  {
  }

  lemma {:induction false} BitsInjective(a: bv32, b: bv32, n: nat)
    ensures CrcBits(a, n) == CrcBits(b, n) ==> a == b
    decreases n
  {
    hide CrcBit;
    if n > 0 {
      BitsInjective(CrcBit(a), CrcBit(b), n - 1);
      BitInjective(a, b);
    }
  }

  lemma MixInjective(c: bv32, d: bv32, x: bv32, y: bv32)
    ensures c ^ x == c ^ y ==> x == y
    ensures c ^ x == d ^ x ==> c == d
  {
    hide *;
  }

  lemma MixedInjective(c: bv32, d: bv32, x: Byte, y: Byte)
    ensures Mixed(c, x) == Mixed(c, y) ==> x == y
    ensures Mixed(c, x) == Mixed(d, x) ==> c == d
  {
    B.BitsDiffer(x, y);
    MixInjective(c, d, B.Bits(x), B.Bits(y));
  }

  /** Different bytes lead from one state to different states, and the same byte leads from
      different states to different states. */
  lemma StepInjective(c: bv32, d: bv32, x: Byte, y: Byte)
    ensures x != y ==> CrcStep(c, x) != CrcStep(c, y)
    ensures c != d ==> CrcStep(c, x) != CrcStep(d, x)
  {
    hide CrcBits, Mixed;
    MixedInjective(c, d, x, y);
    BitsInjective(Mixed(c, x), Mixed(c, y), 8);
    BitsInjective(Mixed(c, x), Mixed(d, x), 8);
  }

  lemma {:induction false} FoldInjective(c: bv32, d: bv32, s: seq<Byte>)
    ensures c != d ==> CrcFold(c, s) != CrcFold(d, s)
    decreases |s|
  {
    hide CrcStep;
    if s != [] {
      StepInjective(c, d, s[0], s[0]);
      FoldInjective(CrcStep(c, s[0]), CrcStep(d, s[0]), s[1..]);
    }
  }

  /** Data with one byte changed, wherever it is and however much follows, has another
      checksum. */
  lemma OneByteDetected(a: seq<Byte>, x: Byte, y: Byte, b: seq<Byte>)
    requires x != y
    ensures Checksum(a + [x] + b) != Checksum(a + [y] + b)
  {
    var c := CrcFold(CRC_START, a);
    CrcOneMore(CRC_START, a, x, b);
    CrcOneMore(CRC_START, a, y, b);
    hide CrcStep, CrcFold;
    StepInjective(c, c, x, y);
    FoldInjective(CrcStep(c, x), CrcStep(c, y), b);
    NotInjective(CrcFold(CRC_START, a + [x] + b), CrcFold(CRC_START, a + [y] + b));
  }

  lemma CrcOneMore(c: bv32, a: seq<Byte>, x: Byte, b: seq<Byte>)
    ensures CrcFold(c, a + [x] + b) == CrcFold(CrcStep(CrcFold(c, a), x), b)
  {
    hide CrcStep;
    CrcConcat(c, a + [x], b);
    CrcConcat(c, a, [x]);
    assert [x][1..] == [];
  }

  lemma NotInjective(a: bv32, b: bv32)
    ensures a != b ==> !a != !b
  {
  }

  /** A checksum as it is written to a stream. */
  function ChecksumBytes(c: bv32, big: bool): (r: seq<Byte>)
    ensures |r| == 4
  {
    Word(c as int, 4, big)
  }

  /** A host of the writer's byte order reads the checksum itself, another one the number with
      its bytes reversed. */
  lemma ChecksumReads(c: bv32, big: bool, big2: bool)
    ensures WordValue(ChecksumBytes(c, big), big2)
      == if big == big2 then c as int else WordValue(Reversed(ChecksumBytes(c, big)), big)
    ensures WordValue(ChecksumBytes(c, big), big) == c as int
  {
    assert Power(4) == 0x1_0000_0000;
    WordReads(c as int, 4, big);
    if big != big2 { SwapChangesOrder(Reversed(ChecksumBytes(c, big)), big); ReversedTwice(ChecksumBytes(c, big)); }
  }
}
