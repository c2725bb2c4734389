/** D4StreamMarshaller as an object that checksums and writes, and the serialize() methods
    that drive it. */
module D4StreamMarshaller {
  import opened Bytes
  import opened D4Data

  // ---------------------------------------------------------------- the size checks

  /** One bit of a non-negative int64_t, given by its weight. */
  predicate Bit(n: nat, weight: nat)
    requires weight > 0
  {
    n / weight % 2 == 1
  }

  const BIT_60: nat := 0x1000_0000_0000_0000
  const BIT_61: nat := 0x2000_0000_0000_0000
  const BIT_62: nat := 0x4000_0000_0000_0000

  /** The masks that put_vector tests before it shifts the element count. */
  predicate PassesMask(n: nat, size: nat) {
    match size
    case 1 => false
    case 2 => !Bit(n, BIT_62)
    case 4 => !Bit(n, BIT_62) && !Bit(n, BIT_61)
    case 8 => !Bit(n, BIT_62) && !Bit(n, BIT_61) && !Bit(n, BIT_60)
    case _ => true
  }

  /** For each element size that is shifted, the masks admit exactly the element counts whose
      number of bytes is still an int64_t. */
  lemma MasksExact(n: nat, size: nat)
    requires n < TWO_TO_63 && size in {2, 4, 8}
    ensures PassesMask(n, size) <==> n * size < TWO_TO_63
  {
    var b62, b61, b60 := n / BIT_62, n / BIT_61, n / BIT_60;
    assert b62 < 2 && b61 < 4 && b60 < 8;
    assert b61 / 2 == b62 && b60 / 2 == b61;
  }

  /** A value that gets past the assertions of the marshaller. */
  predicate Sendable(d: Data)
    decreases d, 0
  {
    match d
    case Fixed(_) => true
    case Text(o, b) => !(o && b == [])
    case Vector(es) =>
      if es != [] && es[0].Fixed? then |es[0].bytes| == 1 || |es| * |es[0].bytes| < TWO_TO_63
      else SendableAll(es)
    case Structure(ms) => SendableSent(ms)
    case Sequence(rows) => SendableRows(rows)
  }

  predicate SendableAll(ds: seq<Data>)
    decreases ds, 1
  {
    ds == [] || (Sendable(ds[0]) && SendableAll(ds[1..]))
  }

  predicate SendableRows(rows: seq<Row>)
    decreases rows, 2
  {
    rows == [] || (SendableAll(rows[0].cells) && SendableRows(rows[1..]))
  }

  predicate SendableSent(ms: seq<Member>)
    decreases ms, 1
  {
    ms == [] || (SendableMember(ms[0]) && SendableSent(ms[1..]))
  }

  predicate SendableMember(m: Member)
    decreases m, 0
  {
    m.send ==> Sendable(m.data)
  }

  predicate SendableGroup(g: Group)
    decreases g, 0
  {
    SendableGroups(g.groups) && SendableSent(g.vars)
  }

  predicate SendableGroups(gs: seq<Group>)
    decreases gs, 1
  {
    gs == [] || (SendableGroup(gs[0]) && SendableGroups(gs[1..]))
  }

  /** The elements of a vector have the type of its prototype; counts are int64_t. */
  predicate Typed(d: Data)
    decreases d, 0
  {
    match d
    case Fixed(b) => |b| in {1, 2, 4, 8}
    case Text(_, _) => true
    case Vector(es) =>
      && |es| < TWO_TO_63 && TypedAll(es)
      && (es != [] && es[0].Fixed? ==> forall e :: e in es ==> e.Fixed? && |e.bytes| == |es[0].bytes|)
    case Structure(ms) => TypedMembers(ms)
    case Sequence(rows) => TypedRows(rows)
  }

  predicate TypedAll(ds: seq<Data>)
    decreases ds, 1
  {
    ds == [] || (Typed(ds[0]) && TypedAll(ds[1..]))
  }

  predicate TypedRows(rows: seq<Row>)
    decreases rows, 2
  {
    rows == [] || (TypedAll(rows[0].cells) && TypedRows(rows[1..]))
  }

  predicate TypedMembers(ms: seq<Member>)
    decreases ms, 1
  {
    ms == [] || (TypedMember(ms[0]) && TypedMembers(ms[1..]))
  }

  predicate TypedMember(m: Member)
    decreases m, 0
  {
    Typed(m.data)
  }

  predicate TypedGroup(g: Group)
    decreases g, 0
  {
    TypedGroups(g.groups) && TypedMembers(g.vars)
  }

  predicate TypedGroups(gs: seq<Group>)
    decreases gs, 1
  {
    gs == [] || (TypedGroup(gs[0]) && TypedGroups(gs[1..]))
  }

  // ---------------------------------------------------------------- the marshaller

  class Marshaller {
    var out: seq<Byte>
    var crc: bv32
    const writeData: bool
    const big: bool

    constructor (writeData: bool, big: bool)
      ensures out == [] && crc == CRC_START && this.writeData == writeData && this.big == big
    {
      out, crc := [], CRC_START;
      this.writeData, this.big := writeData, big;
    }

    method ResetChecksum()
      modifies `crc
      ensures crc == CRC_START
    {
      crc := CRC_START;
    }

    /** checksum_update: one byte after the other. */
    method ChecksumUpdate(data: seq<Byte>)
      modifies `crc
      ensures crc == CrcFold(old(crc), data)
    {
      var i := 0;
      while i < |data|
        invariant 0 <= i <= |data| && CrcFold(crc, data[i..]) == CrcFold(old(crc), data)
      {
        assert data[i..][1..] == data[i + 1..];
        crc := CrcStep(crc, data[i]);
        i := i + 1;
      }
      assert data[i..] == [];
    }

    /** put_checksum writes whether or not values are written. */
    method PutChecksum()
      modifies `out
      ensures out == old(out) + ChecksumBytes(!crc, big)
    {
      out := out + ChecksumBytes(!crc, big);
    }

    /** put_byte, put_int8 and so on up to put_float64: a number in host order. */
    method PutNumber(val: seq<Byte>)
      modifies this
      ensures crc == CrcFold(old(crc), val) && out == old(out) + (if writeData then val else [])
    {
      ChecksumUpdate(val);
      if writeData { out := out + val; }
    }

    /** put_count: no checksum, and written in any case. */
    method PutCount(n: nat)
      modifies `out
      ensures out == old(out) + Count(n, big)
    {
      out := out + Count(n, big);
    }

    method PutStr(val: seq<Byte>)
      modifies this
      ensures crc == CrcFold(old(crc), val)
      ensures out == old(out) + (if writeData then Count(|val|, big) + val else [])
    {
      ChecksumUpdate(val);
      if writeData {
        PutCount(|val|);
        out := out + val;
        assert old(out) + Count(|val|, big) + val == old(out) + (Count(|val|, big) + val);
      }
    }

    /** put_opaque_dap4: an empty buffer has no first element to point at, and the assertion
        on the pointer fails. */
    method PutOpaque(val: seq<Byte>) returns (ok: bool)
      modifies this
      ensures ok <==> val != []
      ensures crc == if ok then CrcFold(old(crc), val) else old(crc)
      ensures out == old(out) + (if ok && writeData then Count(|val|, big) + val else [])
    {
      if val == [] { return false; }
      PutStr(val);
      return true;
    }

    /** put_vector for bytes. */
    method PutBytes(val: seq<Byte>)
      modifies this
      ensures crc == CrcFold(old(crc), val) && out == old(out) + (if writeData then val else [])
    {
      ChecksumUpdate(val);
      if writeData { out := out + val; }
    }

    /** put_vector for wider elements, and the two variants for reals. */
    method PutVector(val: seq<Byte>, num: int, size: nat) returns (ok: bool)
      requires -TWO_TO_63 <= num < TWO_TO_63 && size in {2, 4, 8} && (num >= 0 ==> |val| == num * size)
      modifies this
      ensures ok <==> num >= 0 && num * size < TWO_TO_63
      ensures crc == if ok then CrcFold(old(crc), val) else old(crc)
      ensures out == old(out) + (if ok && writeData then val else [])
    {
      if num < 0 || !PassesMask(num, size) {
        if num >= 0 { MasksExact(num, size); }
        return false;
      }
      MasksExact(num, size);
      ChecksumUpdate(val);
      if writeData { out := out + val; }
      return true;
    }

    // -------------------------------------------------------------- serialize()

    /** serialize() of a variable; `ok` is false when an assertion stops the program. */
    method SerializeData(d: Data) returns (ok: bool)
      requires Typed(d)
      modifies this
      ensures ok <==> Sendable(d)
      ensures ok ==> crc == CrcFold(old(crc), Payload(d)) && out == old(out) + Emit(d, writeData, big)
      decreases d, 0
    {
      hide CrcFold, EmitAll, EmitSent, EmitRows, PayloadAll, PayloadSent, PayloadRows;
      hide SendableAll, SendableSent, SendableRows, TypedAll, TypedMembers, TypedRows, Count;
      match d
      case Fixed(b) =>
        PutNumber(b);
        ok := true;
      case Text(o, b) =>
        if o { ok := PutOpaque(b); } else { PutStr(b); ok := true; }
      case Vector(es) => ok := SerializeVector(es);
      case Structure(ms) => ok := SerializeMembers(ms);
      case Sequence(rows) =>
        PutCount(|rows|);
        ok := SerializeRows(rows);
        if ok {
          assert old(out) + Count(|rows|, big) + EmitRows(rows, writeData, big)
              == old(out) + (Count(|rows|, big) + EmitRows(rows, writeData, big));
        }
    }

    /** Vector::serialize: one block for numbers, element by element for the rest. */
    method SerializeVector(es: seq<Data>) returns (ok: bool)
      requires Typed(Vector(es))
      modifies this
      ensures ok <==> Sendable(Vector(es))
      ensures ok ==> crc == CrcFold(old(crc), PayloadAll(es)) && out == old(out) + EmitAll(es, writeData, big)
      decreases es, 3
    {
      if es == [] { return true; }
      if es[0].Fixed? {
        assert es[0] in es && Typed(es[0]);
        var w := |es[0].bytes|;
        var buf := Buffer(es, w);
        BufferIs(es, w, writeData, big);
        if w == 1 {
          PutBytes(buf);
          ok := true;
        } else {
          ok := PutVector(buf, |es|, w);
        }
      } else {
        ok := SerializeAll(es);
      }
    }

    method SerializeAll(ds: seq<Data>) returns (ok: bool)
      requires TypedAll(ds)
      modifies this
      ensures ok <==> SendableAll(ds)
      ensures ok ==> crc == CrcFold(old(crc), PayloadAll(ds)) && out == old(out) + EmitAll(ds, writeData, big)
      decreases ds, 1
    {
      AllStarts(ds, crc, out, writeData, big);
      hide *;
      var i := 0;
      while i < |ds|
        invariant 0 <= i <= |ds| && AllLeft(old(out), old(crc), out, crc, ds, i, writeData, big)
      {
        AllStep(old(out), old(crc), out, crc, ds, i, writeData, big);
        ok := SerializeData(ds[i]);
        if !ok { return; }
        i := i + 1;
      }
      AllEnds(old(out), old(crc), out, crc, ds, writeData, big);
      ok := true;
    }

    /** The rows of D4Sequence::serialize. */
    method SerializeRows(rows: seq<Row>) returns (ok: bool)
      requires TypedRows(rows)
      modifies this
      ensures ok <==> SendableRows(rows)
      ensures ok ==> crc == CrcFold(old(crc), PayloadRows(rows)) && out == old(out) + EmitRows(rows, writeData, big)
      decreases rows, 2
    {
      RowsStart(rows, crc, out, writeData, big);
      hide *;
      var i := 0;
      while i < |rows|
        invariant 0 <= i <= |rows| && RowsLeft(old(out), old(crc), out, crc, rows, i, writeData, big)
      {
        RowsStep(old(out), old(crc), out, crc, rows, i, writeData, big);
        ok := SerializeAll(rows[i].cells);
        if !ok { return; }
        i := i + 1;
      }
      RowsEnd(old(out), old(crc), out, crc, rows, writeData, big);
      ok := true;
    }

    /** Constructor::serialize: the members whose send flag is set. */
    method SerializeMembers(ms: seq<Member>) returns (ok: bool)
      requires TypedMembers(ms)
      modifies this
      ensures ok <==> SendableSent(ms)
      ensures ok ==> crc == CrcFold(old(crc), PayloadSent(ms)) && out == old(out) + EmitSent(ms, writeData, big)
      decreases ms, 1
    {
      SentStarts(ms, crc, out, writeData, big);
      hide *;
      var i := 0;
      while i < |ms|
        invariant 0 <= i <= |ms| && SentLeft(old(out), old(crc), out, crc, ms, i, writeData, big)
      {
        SentStep(old(out), old(crc), out, crc, ms, i, writeData, big);
        ok := SerializeMember(ms[i]);
        if !ok { return; }
        i := i + 1;
      }
      SentEnds(old(out), old(crc), out, crc, ms, writeData, big);
      ok := true;
    }

    method SerializeMember(m: Member) returns (ok: bool)
      requires TypedMember(m)
      modifies this
      ensures ok <==> SendableMember(m)
      ensures ok ==> crc == CrcFold(old(crc), PayloadMember(m)) && out == old(out) + EmitMember(m, writeData, big)
      decreases m, 0
    {
      if m.send { ok := SerializeData(m.data); } else { ok := true; }
    }

    /** D4Group::serialize. */
    method SerializeGroup(g: Group) returns (ok: bool)
      requires TypedGroup(g)
      modifies this
      ensures ok <==> SendableGroup(g)
      ensures ok ==> out == old(out) + EmitGroup(g, writeData, big)
      decreases g, 0
    {
      ok := SerializeGroups(g.groups);
      if !ok { return; }
      ok := SerializeVars(g.vars);
      ghost var groups, vars := EmitGroups(g.groups, writeData, big), EmitVars(g.vars, writeData, big);
      assert old(out) + groups + vars == old(out) + (groups + vars);
    }

    method SerializeGroups(gs: seq<Group>) returns (ok: bool)
      requires TypedGroups(gs)
      modifies this
      ensures ok <==> SendableGroups(gs)
      ensures ok ==> out == old(out) + EmitGroups(gs, writeData, big)
      decreases gs, 1
    {
      GroupsStart(gs, out, writeData, big);
      hide *;
      var i := 0;
      while i < |gs|
        invariant 0 <= i <= |gs| && GroupsLeft(old(out), out, gs, i, writeData, big)
      {
        GroupsStep(old(out), out, gs, i, writeData, big);
        ok := SerializeGroup(gs[i]);
        if !ok { return; }
        i := i + 1;
      }
      GroupsEnd(old(out), out, gs, writeData, big);
      ok := true;
    }

    /** One sent variable of a group, with a checksum of its own. */
    method SerializeTopLevel(d: Data) returns (ok: bool)
      requires Typed(d)
      modifies this
      ensures ok <==> Sendable(d)
      ensures ok ==> out == old(out) + EmitVar(d, writeData, big)
    {
      hide Emit, Payload, CrcFold, Typed, Sendable;
      ResetChecksum();
      ok := SerializeData(d);
      if !ok { return; }
      PutChecksum();
      assert old(out) + Emit(d, writeData, big) + ChecksumBytes(!crc, big) == old(out) + EmitVar(d, writeData, big);
    }

    /** The variables of a group. */
    method SerializeVars(vs: seq<Member>) returns (ok: bool)
      requires TypedMembers(vs)
      modifies this
      ensures ok <==> SendableSent(vs)
      ensures ok ==> out == old(out) + EmitVars(vs, writeData, big)
    {
      VarsStart(vs, out, writeData, big);
      hide *;
      var i := 0;
      while i < |vs|
        invariant 0 <= i <= |vs| && VarsLeft(old(out), out, vs, i, writeData, big)
      {
        VarsStep(old(out), out, vs, i, writeData, big);
        if vs[i].send {
          ok := SerializeTopLevel(vs[i].data);
          if !ok { return; }
        }
        i := i + 1;
      }
      VarsEnd(old(out), out, vs, writeData, big);
      ok := true;
    }
  }

  // ---------------------------------------------------------------- loops

  /** The loop over values with the first i of them done. */
  ghost predicate AllLeft(out0: seq<Byte>, crc0: bv32, out: seq<Byte>, crc: bv32, s: seq<Data>, i: nat,
                     write: bool, big: bool)
  {
    && i <= |s| && TypedAll(s[i..]) && (SendableAll(s) <==> SendableAll(s[i..]))
    && CrcFold(crc, PayloadAll(s[i..])) == CrcFold(crc0, PayloadAll(s))
    && out + EmitAll(s[i..], write, big) == out0 + EmitAll(s, write, big)
  }

  lemma AllStarts(s: seq<Data>, crc: bv32, out: seq<Byte>, write: bool, big: bool)
    requires TypedAll(s)
    ensures AllLeft(out, crc, out, crc, s, 0, write, big)
  {
    assert s[0..] == s;
  }

  lemma AllStep(out0: seq<Byte>, crc0: bv32, out: seq<Byte>, crc: bv32, s: seq<Data>, i: nat,
               write: bool, big: bool)
    requires i < |s| && AllLeft(out0, crc0, out, crc, s, i, write, big)
    ensures Typed(s[i]) && (!Sendable(s[i]) ==> !SendableAll(s))
    ensures Sendable(s[i]) ==>
      AllLeft(out0, crc0, out + Emit(s[i], write, big), CrcFold(crc, Payload(s[i])), s, i + 1, write, big)
  {
    assert s[i..][0] == s[i] && s[i..][1..] == s[i + 1..];
    var one, more := Emit(s[i], write, big), EmitAll(s[i + 1..], write, big);
    assert EmitAll(s[i..], write, big) == one + more;
    assert (out + one) + more == out + (one + more);
    CrcConcat(crc, Payload(s[i]), PayloadAll(s[i + 1..]));
  }

  lemma AllEnds(out0: seq<Byte>, crc0: bv32, out: seq<Byte>, crc: bv32, s: seq<Data>, write: bool, big: bool)
    requires AllLeft(out0, crc0, out, crc, s, |s|, write, big)
    ensures SendableAll(s) && crc == CrcFold(crc0, PayloadAll(s)) && out == out0 + EmitAll(s, write, big)
  {
    assert s[|s|..] == [];
    assert out + [] == out;
  }

  /** The loop over rows with the first i of them done. */
  ghost predicate RowsLeft(out0: seq<Byte>, crc0: bv32, out: seq<Byte>, crc: bv32, s: seq<Row>, i: nat,
                     write: bool, big: bool)
  {
    && i <= |s| && TypedRows(s[i..]) && (SendableRows(s) <==> SendableRows(s[i..]))
    && CrcFold(crc, PayloadRows(s[i..])) == CrcFold(crc0, PayloadRows(s))
    && out + EmitRows(s[i..], write, big) == out0 + EmitRows(s, write, big)
  }

  lemma RowsStart(s: seq<Row>, crc: bv32, out: seq<Byte>, write: bool, big: bool)
    requires TypedRows(s)
    ensures RowsLeft(out, crc, out, crc, s, 0, write, big)
  {
    assert s[0..] == s;
  }

  lemma RowsStep(out0: seq<Byte>, crc0: bv32, out: seq<Byte>, crc: bv32, s: seq<Row>, i: nat,
               write: bool, big: bool)
    requires i < |s| && RowsLeft(out0, crc0, out, crc, s, i, write, big)
    ensures TypedAll(s[i].cells) && (!SendableAll(s[i].cells) ==> !SendableRows(s))
    ensures SendableAll(s[i].cells) ==>
      RowsLeft(out0, crc0, out + EmitAll(s[i].cells, write, big), CrcFold(crc, PayloadAll(s[i].cells)),
               s, i + 1, write, big)
  {
    assert s[i..][0] == s[i] && s[i..][1..] == s[i + 1..];
    var one, more := EmitAll(s[i].cells, write, big), EmitRows(s[i + 1..], write, big);
    assert EmitRows(s[i..], write, big) == one + more;
    assert (out + one) + more == out + (one + more);
    CrcConcat(crc, PayloadAll(s[i].cells), PayloadRows(s[i + 1..]));
  }

  lemma RowsEnd(out0: seq<Byte>, crc0: bv32, out: seq<Byte>, crc: bv32, s: seq<Row>, write: bool, big: bool)
    requires RowsLeft(out0, crc0, out, crc, s, |s|, write, big)
    ensures SendableRows(s) && crc == CrcFold(crc0, PayloadRows(s)) && out == out0 + EmitRows(s, write, big)
  {
    assert s[|s|..] == [];
    assert out + [] == out;
  }

  /** The loop over members with the first i of them done. */
  ghost predicate SentLeft(out0: seq<Byte>, crc0: bv32, out: seq<Byte>, crc: bv32, s: seq<Member>, i: nat,
                     write: bool, big: bool)
  {
    && i <= |s| && TypedMembers(s[i..]) && (SendableSent(s) <==> SendableSent(s[i..]))
    && CrcFold(crc, PayloadSent(s[i..])) == CrcFold(crc0, PayloadSent(s))
    && out + EmitSent(s[i..], write, big) == out0 + EmitSent(s, write, big)
  }

  lemma SentStarts(s: seq<Member>, crc: bv32, out: seq<Byte>, write: bool, big: bool)
    requires TypedMembers(s)
    ensures SentLeft(out, crc, out, crc, s, 0, write, big)
  {
    assert s[0..] == s;
  }

  lemma SentStep(out0: seq<Byte>, crc0: bv32, out: seq<Byte>, crc: bv32, s: seq<Member>, i: nat,
               write: bool, big: bool)
    requires i < |s| && SentLeft(out0, crc0, out, crc, s, i, write, big)
    ensures TypedMember(s[i]) && (!SendableMember(s[i]) ==> !SendableSent(s))
    ensures SendableMember(s[i]) ==>
      SentLeft(out0, crc0, out + EmitMember(s[i], write, big), CrcFold(crc, PayloadMember(s[i])),
               s, i + 1, write, big)
  {
    assert s[i..][0] == s[i] && s[i..][1..] == s[i + 1..];
    var one, more := EmitMember(s[i], write, big), EmitSent(s[i + 1..], write, big);
    assert EmitSent(s[i..], write, big) == one + more;
    assert (out + one) + more == out + (one + more);
    CrcConcat(crc, PayloadMember(s[i]), PayloadSent(s[i + 1..]));
  }

  lemma SentEnds(out0: seq<Byte>, crc0: bv32, out: seq<Byte>, crc: bv32, s: seq<Member>, write: bool, big: bool)
    requires SentLeft(out0, crc0, out, crc, s, |s|, write, big)
    ensures SendableSent(s) && crc == CrcFold(crc0, PayloadSent(s)) && out == out0 + EmitSent(s, write, big)
  {
    assert s[|s|..] == [];
    assert out + [] == out;
  }

  /** The loop over the child groups. */
  ghost predicate GroupsLeft(out0: seq<Byte>, out: seq<Byte>, s: seq<Group>, i: nat, write: bool, big: bool) {
    && i <= |s| && TypedGroups(s[i..]) && (SendableGroups(s) <==> SendableGroups(s[i..]))
    && out + EmitGroups(s[i..], write, big) == out0 + EmitGroups(s, write, big)
  }

  lemma GroupsStart(s: seq<Group>, out: seq<Byte>, write: bool, big: bool)
    requires TypedGroups(s)
    ensures GroupsLeft(out, out, s, 0, write, big)
  {
    assert s[0..] == s;
  }

  lemma GroupsStep(out0: seq<Byte>, out: seq<Byte>, s: seq<Group>, i: nat, write: bool, big: bool)
    requires i < |s| && GroupsLeft(out0, out, s, i, write, big)
    ensures TypedGroup(s[i]) && (!SendableGroup(s[i]) ==> !SendableGroups(s))
    ensures SendableGroup(s[i]) ==> GroupsLeft(out0, out + EmitGroup(s[i], write, big), s, i + 1, write, big)
  {
    var one, more := EmitGroup(s[i], write, big), EmitGroups(s[i + 1..], write, big);
    assert s[i..][0] == s[i] && s[i..][1..] == s[i + 1..];
    assert EmitGroups(s[i..], write, big) == one + more;
    assert (out + one) + more == out + (one + more);
  }

  lemma GroupsEnd(out0: seq<Byte>, out: seq<Byte>, s: seq<Group>, write: bool, big: bool)
    requires GroupsLeft(out0, out, s, |s|, write, big)
    ensures SendableGroups(s) && out == out0 + EmitGroups(s, write, big)
  {
    assert s[|s|..] == [];
    assert out + [] == out;
  }

  /** The loop over the variables of a group. */
  ghost predicate VarsLeft(out0: seq<Byte>, out: seq<Byte>, s: seq<Member>, i: nat, write: bool, big: bool) {
    && i <= |s| && TypedMembers(s[i..]) && (SendableSent(s) <==> SendableSent(s[i..]))
    && out + EmitVars(s[i..], write, big) == out0 + EmitVars(s, write, big)
  }

  lemma VarsStart(s: seq<Member>, out: seq<Byte>, write: bool, big: bool)
    requires TypedMembers(s)
    ensures VarsLeft(out, out, s, 0, write, big)
  {
    assert s[0..] == s;
  }

  lemma VarsStep(out0: seq<Byte>, out: seq<Byte>, s: seq<Member>, i: nat, write: bool, big: bool)
    requires i < |s| && VarsLeft(out0, out, s, i, write, big)
    ensures var d := s[i].data;
      if s[i].send
      then && Typed(d) && (!Sendable(d) ==> !SendableSent(s))
           && (Sendable(d) ==> VarsLeft(out0, out + EmitVar(d, write, big), s, i + 1, write, big))
      else VarsLeft(out0, out, s, i + 1, write, big)
  {
    var d := s[i].data;
    var more := EmitVars(s[i + 1..], write, big);
    assert s[i..][0] == s[i] && s[i..][1..] == s[i + 1..];
    assert SendableMember(s[i]) <==> (s[i].send ==> Sendable(d));
    assert TypedMember(s[i]);
    hide EmitVar, Typed, Sendable;
    if s[i].send {
      assert EmitVars(s[i..], write, big) == EmitVar(d, write, big) + more;
      assert out + EmitVar(d, write, big) + more == out + (EmitVar(d, write, big) + more);
    } else {
      assert EmitVars(s[i..], write, big) == [] + more && [] + more == more;
    }
  }

  lemma VarsEnd(out0: seq<Byte>, out: seq<Byte>, s: seq<Member>, write: bool, big: bool)
    requires VarsLeft(out0, out, s, |s|, write, big)
    ensures SendableSent(s) && out == out0 + EmitVars(s, write, big)
  {
    assert s[|s|..] == [];
    assert out + [] == out;
  }

  // ---------------------------------------------------------------- blocks of numbers

  /** The values of a vector of numbers as they lie in d_buf. */
  function Buffer(es: seq<Data>, w: nat): (r: seq<Byte>)
    requires forall e :: e in es ==> e.Fixed? && |e.bytes| == w
    ensures |r| == |es| * w
  {
    if es == [] then []
    else
      assert forall e :: e in es[1..] ==> e in es;
      es[0].bytes + Buffer(es[1..], w)
  }

  /** The block of numbers is what its elements would emit and checksum one by one. */
  lemma {:induction false} BufferIs(es: seq<Data>, w: nat, write: bool, big: bool)
    requires forall e :: e in es ==> e.Fixed? && |e.bytes| == w
    ensures PayloadAll(es) == Buffer(es, w)
    ensures EmitAll(es, write, big) == if write then Buffer(es, w) else []
    decreases |es|
  {
    if es != [] {
      assert forall e :: e in es[1..] ==> e in es;
      BufferIs(es[1..], w, write, big);
    }
  }
}
