/** The value of an enumeration variable: a 64-bit buffer behind eight integer types. */
module D4Enum {
  import opened DmrTree
  import opened Bytes
  import opened D4StreamMarshaller
  import opened D4StreamUnMarshaller

  const TWO_TO_64: int := 0x1_0000_0000_0000_0000

  // ---------------------------------------------------------------- integer types

  predicate IsElementType(t: Type) {
    t in {ByteT, UInt8T, Int8T, Int16T, UInt16T, Int32T, UInt32T, Int64T, UInt64T}
  }

  predicate Signed(t: Type) { t in {Int8T, Int16T, Int32T, Int64T} }

  /** m_type_width. */
  function Width(t: Type): nat
    requires IsElementType(t)
  {
    match t
    case Int16T => 2
    case UInt16T => 2
    case Int32T => 4
    case UInt32T => 4
    case Int64T => 8
    case UInt64T => 8
    case _ => 1
  }

  /** The number of values of the type. */
  function Modulus(t: Type): int
    requires IsElementType(t)
  {
    match Width(t)
    case 1 => 0x100
    case 2 => 0x1_0000
    case 4 => 0x1_0000_0000
    case _ => 0x1_0000_0000_0000_0000
  }

  predicate InRange(t: Type, v: int)
    requires IsElementType(t)
  {
    if Signed(t) then -(Modulus(t) / 2) <= v < Modulus(t) / 2 else 0 <= v < Modulus(t)
  }

  /** A C++ conversion to the type. */
  function Cast(t: Type, v: int): (r: int)
    requires IsElementType(t)
    ensures InRange(t, r)
  {
    var m := v % Modulus(t);
    if Signed(t) && m >= Modulus(t) / 2 then m - Modulus(t) else m
  }

  function ToUInt64(v: int): nat { v % TWO_TO_64 }

  /** m_check_value on an int64_t. */
  predicate CheckValue(t: Type, v: int)
    requires IsElementType(t)
  {
    match t
    case UInt64T => true
    case Int64T => true
    case Int8T => -0x80 <= v <= 0x7f
    case Int16T => -0x8000 <= v <= 0x7fff
    case Int32T => -0x8000_0000 <= v <= 0x7fff_ffff
    case UInt16T => 0 <= v && ToUInt64(v) <= 0xffff
    case UInt32T => 0 <= v && ToUInt64(v) <= 0xffff_ffff
    case _ => 0 <= v && ToUInt64(v) <= 0xff
  }

  /** The check of the enumeration's definition admits exactly the numbers of the element type,
      and the check of the variable agrees on every int64_t, except on the negative numbers of
      an unsigned 64-bit enumeration, which only the variable accepts. */
  lemma ChecksAgree(t: Type, v: int)
    requires IsElementType(t) && InRange(Int64T, v)
    ensures IsValidEnumValue(t, v) <==> InRange(t, v)
    ensures IsValidEnumValue(t, v) == CheckValue(t, v) <==> !(t == UInt64T && v < 0)
    ensures t == UInt64T && v < 0 ==> CheckValue(t, v) && !IsValidEnumValue(t, v)
  {
  }

  /** The bytes of the number on the wire. */
  function Wire(t: Type, buf: nat, big: bool): (r: seq<Byte>)
    requires IsElementType(t)
    ensures |r| == Width(t)
  {
    Word(buf % Modulus(t), Width(t), big)
  }

  // ---------------------------------------------------------------- conversions

  lemma ModulusIsPower(t: Type)
    requires IsElementType(t)
    ensures Power(Width(t)) == Modulus(t) && TWO_TO_64 % Modulus(t) == 0
  {
    assert Power(1) == 0x100;
    assert Power(2) == 256 * Power(1);
    assert Power(4) == 256 * (256 * Power(2));
    EightBytes();
  }

  lemma ModOfMod(v: int, m: int, k: int)
    requires m > 0 && k > 0
    ensures m * k > 0 && v % (m * k) % m == v % m
  {
    assert m * k > 0;
    var q, r := v / (m * k), v % (m * k);
    assert v == q * (m * k) + r && q * (m * k) == (q * k) * m;
    var p, s := r / m, r % m;
    assert v == (q * k + p) * m + s by { assert (q * k + p) * m == (q * k) * m + p * m; }
    Remainder(v, q * k + p, s, m);
  }

  lemma Remainder(v: int, q: int, s: int, m: int)
    requires m > 0 && v == q * m + s && 0 <= s < m
    ensures v % m == s
  {
    var p, r := v / m, v % m;
    assert v == p * m + r;
    assert (q - p) * m == r - s by { assert (q - p) * m == q * m - p * m; }
    assert (p - q) * m == s - r;
    if q > p { AtLeast(q - p, m); }
    if q < p { AtLeast(p - q, m); }
  }

  lemma AtLeast(k: int, m: int)
    requires k > 0 && m > 0
    ensures k * m >= m
  {
    if k > 1 { AtLeast(k - 1, m); }
  }

  /** Going through the 64-bit buffer does not change the low bytes. */
  lemma LowBytes(t: Type, v: int)
    requires IsElementType(t)
    ensures ToUInt64(v) % Modulus(t) == v % Modulus(t)
  {
    ModOfMod(v, Modulus(t), TWO_TO_64 / Modulus(t));
  }

  lemma CastInRange(t: Type, v: int)
    requires IsElementType(t) && InRange(t, v)
    ensures Cast(t, v) == v
  {
    if v < 0 { Remainder(v, -1, v + Modulus(t), Modulus(t)); }
  }

  // ---------------------------------------------------------------- the variable

  class Enum {
    const elementType: Type
    var buf: nat

    constructor (t: Type)
      ensures elementType == t && buf == 0
    {
      elementType, buf := t, 0;
    }

    /** set_value; false stands for the exception. */
    method SetValue(v: int, check: bool) returns (ok: bool)
      requires IsElementType(elementType)
      modifies this
      ensures ok <==> !check || CheckValue(elementType, Cast(Int64T, v))
      ensures buf == if ok then ToUInt64(Cast(Int64T, v)) else old(buf)
    {
      if check && !CheckValue(elementType, Cast(Int64T, v)) { return false; }
      buf := ToUInt64(Cast(Int64T, v));
      return true;
    }

    /** serialize(): only the bytes of the element type go out. */
    method Serialize(m: Marshaller)
      requires IsElementType(elementType)
      modifies m
      ensures m.out == old(m.out) + (if m.writeData then Wire(elementType, buf, m.big) else [])
    {
      m.PutNumber(Word(buf % Modulus(elementType), Width(elementType), m.big));
    }

    /** deserialize(): read a number of the element type and widen it; false when the stream is
        too short. */
    method Deserialize(um: UnMarshaller) returns (ok: bool)
      requires IsElementType(elementType)
      modifies this, um
      ensures ok <==> |old(um.input)| >= Width(elementType)
      ensures ok ==> um.input == old(um.input)[Width(elementType)..]
      ensures ok ==> buf == Widened(elementType, old(um.input)[..Width(elementType)], um.big, um.twiddle)
    {
      var b := um.GetNumber(Width(elementType));
      if b.None? { return false; }
      buf := ToUInt64(Cast(elementType, WordValue(b.value, um.big)));
      return true;
    }

    /** value() into a variable of type t. */
    function Value(t: Type): int
      requires IsElementType(t)
      reads this
    {
      Cast(t, buf)
    }
  }

  /** What the buffer holds after these bytes have been read. */
  function Widened(t: Type, b: seq<Byte>, big: bool, twiddle: bool): nat
    requires IsElementType(t) && |b| == Width(t)
  {
    ToUInt64(Cast(t, WordValue(if twiddle then Reversed(b) else b, big)))
  }

  /** A number that fits the element type comes out of the buffer, of the wire and of any
      byte order repair as it went in. */
  lemma EnumReturns(t: Type, v: int, big: bool, big2: bool)
    requires IsElementType(t) && InRange(t, v)
    ensures CheckValue(t, Cast(Int64T, v))
    ensures var buf := ToUInt64(Cast(Int64T, v));
      && buf == ToUInt64(v) && Cast(t, buf) == v
      && Widened(t, Wire(t, buf, big), big2, big != big2) == buf
  {
    BufferOf(v);
    PassesCheck(t, v);
    LowBytes(t, v);
    var buf := ToUInt64(v);
    CastLow(t, v, buf);
    WireReads(t, buf, big, big2);
    LowAgain(t, v, buf);
    hide *;
    WidenedIs(t, Wire(t, buf, big), big2, big != big2, buf % Modulus(t));
  }

  lemma PassesCheck(t: Type, v: int)
    requires IsElementType(t) && InRange(t, v)
    ensures CheckValue(t, Cast(Int64T, v))
  {
    if t != UInt64T { CastInRange(Int64T, v); }
  }

  lemma LowAgain(t: Type, v: int, buf: nat)
    requires IsElementType(t) && InRange(t, v) && buf % Modulus(t) == v % Modulus(t)
    ensures ToUInt64(Cast(t, buf % Modulus(t))) == ToUInt64(v)
  {
    var m := Modulus(t);
    Remainder(buf % m, 0, buf % m, m);
    CastLow(t, v, buf % m);
  }

  lemma WidenedIs(t: Type, b: seq<Byte>, big: bool, twiddle: bool, n: nat)
    requires IsElementType(t) && |b| == Width(t) && WordValue(if twiddle then Reversed(b) else b, big) == n
    ensures Widened(t, b, big, twiddle) == ToUInt64(Cast(t, n))
  {
  }

  /** The bytes on the wire, read on any host, spell the low part of the buffer. */
  lemma WireReads(t: Type, buf: nat, big: bool, big2: bool)
    requires IsElementType(t)
    ensures var b := Wire(t, buf, big);
      WordValue(if big != big2 then Reversed(b) else b, big2) == buf % Modulus(t)
  {
    ModulusIsPower(t);
    WordReads(buf % Modulus(t), Width(t), big);
    if big != big2 { SwapChangesOrder(Wire(t, buf, big), big); }
  }

  lemma BufferOf(v: int)
    ensures ToUInt64(Cast(Int64T, v)) == ToUInt64(v)
  {
    var m := v % TWO_TO_64;
    if m >= TWO_TO_64 / 2 {
      Remainder(m - TWO_TO_64, -1, m, TWO_TO_64);
    }
  }

  lemma CastLow(t: Type, v: int, w: int)
    requires IsElementType(t) && InRange(t, v) && w % Modulus(t) == v % Modulus(t)
    ensures Cast(t, w) == v
  {
    CastInRange(t, v);
  }

  /** Checked set_value, serialize, deserialize on another host and value() give the number
      back. */
  method RoundTrip(t: Type, v: int, big: bool, big2: bool) returns (got: int)
    requires IsElementType(t) && InRange(t, v)
    ensures got == v
  {
    EnumReturns(t, v, big, big2);
    var sender := new Enum(t);
    var ok := sender.SetValue(v, true);
    var m := new Marshaller(true, big);
    sender.Serialize(m);
    assert m.out == Wire(t, sender.buf, big);
    var um := new UnMarshaller(m.out, big2, big != big2);
    var receiver := new Enum(t);
    ok := receiver.Deserialize(um);
    assert m.out[..Width(t)] == m.out;
    got := receiver.Value(t);
  }
}
