/** What a receiver makes of what a sender emitted. */
module CodecRoundTrip {
  import opened Wrappers
  import opened Bytes
  import opened D4Data

  // ---------------------------------------------------------------- declarations

  /** A variable without its values. */
  function Blank(v: Recv): Recv
    decreases v, 0
  {
    match v
    case RFixed(w, _) => RFixed(w, [])
    case RText(o, _) => RText(o, [])
    case RVector(n, proto, _) => RVector(n, Blank(proto), [])
    case RStructure(ms) => RStructure(BlankAll(ms))
    case RSequence(cols, _, _) => RSequence(BlankAll(cols), 0, [])
  }

  function BlankAll(vs: seq<Recv>): (r: seq<Recv>)
    ensures |r| == |vs|
    decreases vs, 1
  {
    if vs == [] then [] else [Blank(vs[0])] + BlankAll(vs[1..])
  }

  /** The declaration fits the sent part of the value. */
  predicate Fits(d: Data, v: Recv)
    decreases d, 0
  {
    match d
    case Fixed(b) => v.RFixed? && |b| == v.width
    case Text(o, b) => v.RText? && o == v.opaqueType && |b| < TWO_TO_63
    case Vector(es) => v.RVector? && |es| == v.size && FitsCopies(es, v.proto)
    case Structure(ms) => v.RStructure? && FitsSent(ms, v.members)
    case Sequence(rows) => v.RSequence? && |rows| < TWO_TO_63 && FitsRows(rows, v.columns)
  }

  predicate FitsCopies(es: seq<Data>, proto: Recv)
    decreases es, 1
  {
    es == [] || (Fits(es[0], proto) && FitsCopies(es[1..], proto))
  }

  predicate FitsAll(ds: seq<Data>, vs: seq<Recv>)
    decreases ds, 1
  {
    if ds == [] then vs == [] else vs != [] && Fits(ds[0], vs[0]) && FitsAll(ds[1..], vs[1..])
  }

  predicate FitsRows(rows: seq<Row>, cols: seq<Recv>)
    decreases rows, 2
  {
    rows == [] || (FitsAll(rows[0].cells, cols) && FitsRows(rows[1..], cols))
  }

  predicate FitsSent(ms: seq<Member>, vs: seq<Recv>)
    decreases ms, 1
  {
    if ms == [] then vs == []
    else if ms[0].send then vs != [] && FitsMember(ms[0], vs[0]) && FitsSent(ms[1..], vs[1..])
    else FitsSent(ms[1..], vs)
  }

  predicate FitsMember(m: Member, v: Recv)
    decreases m, 0
  {
    Fits(m.data, v)
  }

  /** A variable that can be read over and over: no sequence in it except inside vectors,
      whose elements are new copies each time. */
  predicate Reusable(v: Recv)
    decreases v, 0
  {
    match v
    case RFixed(_, _) => true
    case RText(_, _) => true
    case RVector(_, proto, _) => Fresh(proto)
    case RStructure(ms) => ReusableAll(ms)
    case RSequence(_, _, _) => false
  }

  predicate ReusableAll(vs: seq<Recv>)
    decreases vs, 1
  {
    vs == [] || (Reusable(vs[0]) && ReusableAll(vs[1..]))
  }

  /** A variable nothing has been read into yet, without sequences directly in sequences. */
  predicate Fresh(v: Recv)
    decreases v, 0
  {
    match v
    case RFixed(_, _) => true
    case RText(_, _) => true
    case RVector(_, proto, _) => Fresh(proto)
    case RStructure(ms) => FreshAll(ms)
    case RSequence(cols, _, rows) => rows == [] && ReusableAll(cols)
  }

  predicate FreshAll(vs: seq<Recv>)
    decreases vs, 1
  {
    vs == [] || (Fresh(vs[0]) && FreshAll(vs[1..]))
  }

  lemma {:induction false} ReusableIsFresh(v: Recv)
    requires Reusable(v)
    ensures Fresh(v)
    decreases v, 0
  {
    if v.RStructure? { ReusableAllFresh(v.members); }
  }

  lemma {:induction false} ReusableAllFresh(vs: seq<Recv>)
    requires ReusableAll(vs)
    ensures FreshAll(vs)
    decreases vs, 1
  {
    if vs != [] {
      ReusableIsFresh(vs[0]);
      ReusableAllFresh(vs[1..]);
    }
  }

  // ---------------------------------------------------------------- values received

  /** The value a variable holds. */
  function Value(v: Recv): Data
    decreases v, 0
  {
    match v
    case RFixed(_, b) => Fixed(b)
    case RText(o, b) => Text(o, b)
    case RVector(_, _, es) => Vector(ValueAll(es))
    case RStructure(ms) => Structure(ValueMembers(ms))
    case RSequence(_, _, rows) => Sequence(ValueRows(rows))
  }

  function ValueAll(vs: seq<Recv>): seq<Data>
    decreases vs, 1
  {
    if vs == [] then [] else [Value(vs[0])] + ValueAll(vs[1..])
  }

  function ValueMembers(vs: seq<Recv>): seq<Member>
    decreases vs, 1
  {
    if vs == [] then [] else [Member(true, Value(vs[0]))] + ValueMembers(vs[1..])
  }

  function ValueRows(rows: seq<RRow>): seq<Row>
    decreases rows, 2
  {
    if rows == [] then [] else [Row(ValueAll(rows[0].cells))] + ValueRows(rows[1..])
  }

  /** The sent part of a value as it arrives: numbers have their bytes reversed when the hosts
      differ in byte order. */
  function Arrives(d: Data, twiddle: bool): Data
    decreases d, 0
  {
    match d
    case Fixed(b) => if twiddle then Fixed(Reversed(b)) else d
    case Text(_, _) => d
    case Vector(es) => Vector(ArrivesAll(es, twiddle))
    case Structure(ms) => Structure(ArrivesSent(ms, twiddle))
    case Sequence(rows) => Sequence(ArrivesRows(rows, twiddle))
  }

  function ArrivesAll(ds: seq<Data>, twiddle: bool): seq<Data>
    decreases ds, 1
  {
    if ds == [] then [] else [Arrives(ds[0], twiddle)] + ArrivesAll(ds[1..], twiddle)
  }

  function ArrivesRows(rows: seq<Row>, twiddle: bool): seq<Row>
    decreases rows, 2
  {
    if rows == [] then [] else [Row(ArrivesAll(rows[0].cells, twiddle))] + ArrivesRows(rows[1..], twiddle)
  }

  function ArrivesSent(ms: seq<Member>, twiddle: bool): seq<Member>
    decreases ms, 1
  {
    if ms == [] then [] else ArrivesMember(ms[0], twiddle) + ArrivesSent(ms[1..], twiddle)
  }

  function ArrivesMember(m: Member, twiddle: bool): seq<Member>
    decreases m, 0
  {
    if m.send then [Member(true, Arrives(m.data, twiddle))] else []
  }

  /** Between hosts of the same byte order the sent part arrives as it is. */
  lemma {:induction false} ArrivesUnchanged(d: Data)
    ensures Arrives(d, false) == Project(d)
    decreases d, 0
  {
    match d
    case Fixed(_) =>
    case Text(_, _) =>
    case Vector(es) => ArrivesAllUnchanged(es);
    case Structure(ms) => ArrivesSentUnchanged(ms);
    case Sequence(rows) => ArrivesRowsUnchanged(rows);
  }

  lemma {:induction false} ArrivesAllUnchanged(ds: seq<Data>)
    ensures ArrivesAll(ds, false) == ProjectAll(ds)
    decreases ds, 1
  {
    if ds != [] {
      ArrivesUnchanged(ds[0]);
      ArrivesAllUnchanged(ds[1..]);
    }
  }

  lemma {:induction false} ArrivesRowsUnchanged(rows: seq<Row>)
    ensures ArrivesRows(rows, false) == ProjectRows(rows)
    decreases rows, 2
  {
    if rows != [] {
      ArrivesAllUnchanged(rows[0].cells);
      ArrivesRowsUnchanged(rows[1..]);
    }
  }

  lemma {:induction false} ArrivesSentUnchanged(ms: seq<Member>)
    ensures ArrivesSent(ms, false) == ProjectSent(ms)
    decreases ms, 1
  {
    if ms != [] {
      ArrivesMemberUnchanged(ms[0]);
      ArrivesSentUnchanged(ms[1..]);
    }
  }

  lemma {:induction false} ArrivesMemberUnchanged(m: Member)
    ensures ArrivesMember(m, false) == ProjectMember(m)
    decreases m, 0
  {
    ArrivesUnchanged(m.data);
  }

  // ---------------------------------------------------------------- counts

  /** A count that looks the same in the byte orders of writer and reader. */
  predicate SameCount(n: nat, big: bool, big2: bool) { Count(n, big) == Count(n, big2) }

  /** Every length and count that is sent looks the same to both hosts. */
  predicate CountsAgree(d: Data, big: bool, big2: bool)
    decreases d, 0
  {
    match d
    case Fixed(_) => true
    case Text(_, b) => SameCount(|b|, big, big2)
    case Vector(es) => CountsAgreeAll(es, big, big2)
    case Structure(ms) => CountsAgreeSent(ms, big, big2)
    case Sequence(rows) => SameCount(|rows|, big, big2) && CountsAgreeRows(rows, big, big2)
  }

  predicate CountsAgreeAll(ds: seq<Data>, big: bool, big2: bool)
    decreases ds, 1
  {
    ds == [] || (CountsAgree(ds[0], big, big2) && CountsAgreeAll(ds[1..], big, big2))
  }

  predicate CountsAgreeRows(rows: seq<Row>, big: bool, big2: bool)
    decreases rows, 2
  {
    rows == [] || (CountsAgreeAll(rows[0].cells, big, big2) && CountsAgreeRows(rows[1..], big, big2))
  }

  predicate CountsAgreeSent(ms: seq<Member>, big: bool, big2: bool)
    decreases ms, 1
  {
    ms == [] || (CountsAgreeMember(ms[0], big, big2) && CountsAgreeSent(ms[1..], big, big2))
  }

  predicate CountsAgreeMember(m: Member, big: bool, big2: bool)
    decreases m, 0
  {
    m.send ==> CountsAgree(m.data, big, big2)
  }

  lemma CountReads(n: nat, big: bool, big2: bool, rest: seq<Byte>)
    requires n < TWO_TO_63
    ensures var r := ReadCount(Count(n, big) + rest, big2);
      r.Some? && r.value.1 == rest && (r.value.0 == n <==> SameCount(n, big, big2))
  {
    EightBytes();
    var input := Count(n, big) + rest;
    assert input[..8] == Count(n, big) && input[8..] == rest;
    WordReads(n, 8, big2);
    WordOf(Count(n, big), big2);
  }

  // ---------------------------------------------------------------- only declarations matter

  lemma {:induction false} FitsSame(d: Data, v: Recv, w: Recv)
    requires Fits(d, v) && Blank(v) == Blank(w)
    ensures Fits(d, w)
    decreases d, 0
  {
    match d
    case Fixed(_) =>
    case Text(_, _) =>
    case Vector(es) => FitsCopiesSame(es, v.proto, w.proto);
    case Structure(ms) => FitsSentSame(ms, v.members, w.members);
    case Sequence(rows) => FitsRowsSame(rows, v.columns, w.columns);
  }

  lemma {:induction false} FitsCopiesSame(es: seq<Data>, v: Recv, w: Recv)
    requires FitsCopies(es, v) && Blank(v) == Blank(w)
    ensures FitsCopies(es, w)
    decreases es, 1
  {
    if es != [] {
      FitsSame(es[0], v, w);
      FitsCopiesSame(es[1..], v, w);
    }
  }

  lemma BlankTail(vs: seq<Recv>, ws: seq<Recv>)
    requires BlankAll(vs) == BlankAll(ws)
    ensures |vs| == |ws|
    ensures vs != [] ==> Blank(vs[0]) == Blank(ws[0]) && BlankAll(vs[1..]) == BlankAll(ws[1..])
  {
    if vs != [] {
      assert BlankAll(vs)[0] == Blank(vs[0]) && BlankAll(ws)[0] == Blank(ws[0]);
      assert BlankAll(vs)[1..] == BlankAll(vs[1..]) && BlankAll(ws)[1..] == BlankAll(ws[1..]);
    }
  }

  lemma {:induction false} FitsAllSame(ds: seq<Data>, vs: seq<Recv>, ws: seq<Recv>)
    requires FitsAll(ds, vs) && BlankAll(vs) == BlankAll(ws)
    ensures FitsAll(ds, ws)
    decreases ds, 1
  {
    BlankTail(vs, ws);
    if ds != [] {
      FitsSame(ds[0], vs[0], ws[0]);
      FitsAllSame(ds[1..], vs[1..], ws[1..]);
    }
  }

  lemma {:induction false} FitsRowsSame(rows: seq<Row>, vs: seq<Recv>, ws: seq<Recv>)
    requires FitsRows(rows, vs) && BlankAll(vs) == BlankAll(ws)
    ensures FitsRows(rows, ws)
    decreases rows, 2
  {
    if rows != [] {
      FitsAllSame(rows[0].cells, vs, ws);
      FitsRowsSame(rows[1..], vs, ws);
    }
  }

  lemma {:induction false} FitsSentSame(ms: seq<Member>, vs: seq<Recv>, ws: seq<Recv>)
    requires FitsSent(ms, vs) && BlankAll(vs) == BlankAll(ws)
    ensures FitsSent(ms, ws)
    decreases ms, 1
  {
    BlankTail(vs, ws);
    if ms != [] {
      if ms[0].send {
        FitsMemberSame(ms[0], vs[0], ws[0]);
        FitsSentSame(ms[1..], vs[1..], ws[1..]);
      } else {
        FitsSentSame(ms[1..], vs, ws);
      }
    }
  }

  lemma {:induction false} FitsMemberSame(m: Member, v: Recv, w: Recv)
    requires FitsMember(m, v) && Blank(v) == Blank(w)
    ensures FitsMember(m, w)
    decreases m, 0
  {
    FitsSame(m.data, v, w);
  }

  lemma {:induction false} ValueSnoc(rows: seq<RRow>, r: RRow)
    ensures ValueRows(rows + [r]) == ValueRows(rows) + [Row(ValueAll(r.cells))]
    decreases |rows|
  {
    if rows == [] {
      assert [] + [r] == [r] && [r][1..] == [];
    } else {
      assert (rows + [r])[0] == rows[0] && (rows + [r])[1..] == rows[1..] + [r];
      ValueSnoc(rows[1..], r);
    }
  }

  // ---------------------------------------------------------------- reading

  /** What reading does to one variable: the value arrives, the rest of the stream stays, and
      the declaration is as before. */
  predicate Read(r: Reading<Recv>, v: Recv, value: Data, rest: seq<Byte>) {
    && r.Some? && r.value.1 == rest && Value(r.value.0) == value
    && (Reusable(v) ==> Reusable(r.value.0) && Blank(r.value.0) == Blank(v))
  }

  predicate ReadAll(r: Reading<seq<Recv>>, vs: seq<Recv>, values: seq<Data>, rest: seq<Byte>) {
    && r.Some? && r.value.1 == rest && ValueAll(r.value.0) == values
    && (ReusableAll(vs) ==> ReusableAll(r.value.0) && BlankAll(r.value.0) == BlankAll(vs))
  }

  predicate ReadMembers(r: Reading<seq<Recv>>, vs: seq<Recv>, values: seq<Member>, rest: seq<Byte>) {
    && r.Some? && r.value.1 == rest && ValueMembers(r.value.0) == values
    && (ReusableAll(vs) ==> ReusableAll(r.value.0) && BlankAll(r.value.0) == BlankAll(vs))
  }

  lemma Assoc(a: seq<Byte>, b: seq<Byte>, c: seq<Byte>)
    ensures (a + b) + c == a + (b + c)
  {
  }

  /** A value that fits a fresh variable arrives in it, and nothing after it is touched. */
  lemma {:induction false} Reads(d: Data, v: Recv, rest: seq<Byte>, big: bool, big2: bool)
    requires Fits(d, v) && Fresh(v) && (big == big2 || CountsAgree(d, big, big2))
    ensures Read(Decode(v, Emit(d, true, big) + rest, big2, big != big2), v, Arrives(d, big != big2), rest)
    decreases d, 0
  {
    match d
    case Fixed(b) => ReadsFixed(b, v, rest, big, big2);
    case Text(o, b) => ReadsText(o, b, v, rest, big, big2);
    case Vector(es) => ReadsCopies(es, v.proto, rest, big, big2);
    case Structure(ms) => ReadsSent(ms, v.members, rest, big, big2);
    case Sequence(rows) =>
      ReadsRows(rows, v.columns, [], rest, big, big2);
      ReadsSequence(rows, v, rest, big, big2);
  }

  lemma ReadsFixed(b: seq<Byte>, v: Recv, rest: seq<Byte>, big: bool, big2: bool)
    requires Fits(Fixed(b), v)
    ensures Read(Decode(v, b + rest, big2, big != big2), v, Arrives(Fixed(b), big != big2), rest)
  {
    assert (b + rest)[..|b|] == b && (b + rest)[|b|..] == rest;
  }

  lemma ReadsText(o: bool, b: seq<Byte>, v: Recv, rest: seq<Byte>, big: bool, big2: bool)
    requires Fits(Text(o, b), v) && SameCount(|b|, big, big2)
    ensures Read(Decode(v, Count(|b|, big) + b + rest, big2, big != big2), v, Text(o, b), rest)
  {
    Assoc(Count(|b|, big), b, rest);
    CountReads(|b|, big, big2, b + rest);
    assert (b + rest)[..|b|] == b && (b + rest)[|b|..] == rest;
  }

  lemma ReadsSequence(rows: seq<Row>, v: Recv, rest: seq<Byte>, big: bool, big2: bool)
    requires Fits(Sequence(rows), v) && v.rows == [] && SameCount(|rows|, big, big2)
    requires var r := DecodeRows(v.columns, [], |rows|, EmitRows(rows, true, big) + rest, big2, big != big2);
      r.Some? && r.value.1 == rest && ValueRows(r.value.0.1) == ValueRows([]) + ArrivesRows(rows, big != big2)
    ensures Read(Decode(v, Emit(Sequence(rows), true, big) + rest, big2, big != big2), v,
                 Arrives(Sequence(rows), big != big2), rest)
  {
    hide DecodeRows, EmitRows, ArrivesRows;
    Assoc(Count(|rows|, big), EmitRows(rows, true, big), rest);
    CountReads(|rows|, big, big2, EmitRows(rows, true, big) + rest);
    assert ValueRows([]) + ArrivesRows(rows, big != big2) == ArrivesRows(rows, big != big2);
  }

  lemma {:induction false} ReadsAll(ds: seq<Data>, vs: seq<Recv>, rest: seq<Byte>, big: bool, big2: bool)
    requires FitsAll(ds, vs) && FreshAll(vs) && (big == big2 || CountsAgreeAll(ds, big, big2))
    ensures ReadAll(DecodeAll(vs, EmitAll(ds, true, big) + rest, big2, big != big2), vs,
                    ArrivesAll(ds, big != big2), rest)
    decreases ds, 1
  {
    if ds != [] {
      var more := EmitAll(ds[1..], true, big);
      Assoc(Emit(ds[0], true, big), more, rest);
      Reads(ds[0], vs[0], more + rest, big, big2);
      ReadsAll(ds[1..], vs[1..], rest, big, big2);
      HeadAndTail(DecodeAll(vs, EmitAll(ds, true, big) + rest, big2, big != big2).value.0);
    }
  }

  lemma HeadAndTail<T>(s: seq<T>)
    requires s != []
    ensures s == [s[0]] + s[1..]
  {
  }

  lemma {:induction false} ReadsCopies(es: seq<Data>, proto: Recv, rest: seq<Byte>, big: bool, big2: bool)
    requires FitsCopies(es, proto) && Fresh(proto) && (big == big2 || CountsAgreeAll(es, big, big2))
    ensures var r := DecodeCopies(proto, |es|, EmitAll(es, true, big) + rest, big2, big != big2);
      r.Some? && r.value.1 == rest && ValueAll(r.value.0) == ArrivesAll(es, big != big2)
    decreases es, 1
  {
    if es != [] {
      var more := EmitAll(es[1..], true, big);
      Assoc(Emit(es[0], true, big), more, rest);
      Reads(es[0], proto, more + rest, big, big2);
      ReadsCopies(es[1..], proto, rest, big, big2);
    }
  }

  lemma {:induction false} ReadsSent(ms: seq<Member>, vs: seq<Recv>, rest: seq<Byte>, big: bool, big2: bool)
    requires FitsSent(ms, vs) && FreshAll(vs) && (big == big2 || CountsAgreeSent(ms, big, big2))
    ensures ReadMembers(DecodeAll(vs, EmitSent(ms, true, big) + rest, big2, big != big2), vs,
                        ArrivesSent(ms, big != big2), rest)
    decreases ms, 1
  {
    if ms != [] {
      var more := EmitSent(ms[1..], true, big);
      Assoc(EmitMember(ms[0], true, big), more, rest);
      if ms[0].send {
        ReadsMember(ms[0], vs[0], more + rest, big, big2);
        ReadsSent(ms[1..], vs[1..], rest, big, big2);
      } else {
        assert EmitSent(ms, true, big) == more;
        ReadsSent(ms[1..], vs, rest, big, big2);
      }
    }
  }

  lemma {:induction false} ReadsMember(m: Member, v: Recv, rest: seq<Byte>, big: bool, big2: bool)
    requires m.send && FitsMember(m, v) && Fresh(v) && (big == big2 || CountsAgreeMember(m, big, big2))
    ensures Read(Decode(v, Emit(m.data, true, big) + rest, big2, big != big2), v, Arrives(m.data, big != big2), rest)
    decreases m, 0
  {
    Reads(m.data, v, rest, big, big2);
  }

  lemma NoRowsRead(cols: seq<Recv>, done: seq<RRow>, rest: seq<Byte>, big: bool, big2: bool)
    ensures DecodeRows(cols, done, 0, EmitRows([], true, big) + rest, big2, big != big2) == Some(((cols, done), rest))
    ensures ValueRows(done) + ArrivesRows([], big != big2) == ValueRows(done)
  {
    assert [] + rest == rest;
  }

  /** The first row is read into the columns, and a copy of them is kept. */
  lemma RunFirstRow(rows: seq<Row>, cols: seq<Recv>, done: seq<RRow>, rest: seq<Byte>, big: bool, big2: bool)
    requires rows != []
    ensures DecodeRows(cols, done, |rows|, EmitRows(rows, true, big) + rest, big2, big != big2) ==
      var more := EmitRows(rows[1..], true, big) + rest;
      match DecodeAll(cols, EmitAll(rows[0].cells, true, big) + more, big2, big != big2)
      case None => None
      case Some((cols1, left)) => DecodeRows(cols1, done + [RRow(cols1)], |rows| - 1, left, big2, big != big2)
  {
    hide DecodeAll, EmitAll;
    Assoc(EmitAll(rows[0].cells, true, big), EmitRows(rows[1..], true, big), rest);
  }

  lemma ArrivesFirst(rows: seq<Row>, twiddle: bool)
    requires rows != []
    ensures ArrivesRows(rows, twiddle) == [Row(ArrivesAll(rows[0].cells, twiddle))] + ArrivesRows(rows[1..], twiddle)
  {
    hide ArrivesAll;
  }

  lemma FirstRowFits(rows: seq<Row>, cols: seq<Recv>, big: bool, big2: bool)
    requires rows != [] && FitsRows(rows, cols) && (big == big2 || CountsAgreeRows(rows, big, big2))
    ensures FitsAll(rows[0].cells, cols) && FitsRows(rows[1..], cols)
    ensures big == big2 || (CountsAgreeAll(rows[0].cells, big, big2) && CountsAgreeRows(rows[1..], big, big2))
  {
    hide FitsAll, CountsAgreeAll;
  }

  /** Every row goes through the same column variables and is appended to the rows. */
  lemma {:induction false} ReadsRows(rows: seq<Row>, cols: seq<Recv>, done: seq<RRow>, rest: seq<Byte>,
                                     big: bool, big2: bool)
    requires FitsRows(rows, cols) && ReusableAll(cols) && (big == big2 || CountsAgreeRows(rows, big, big2))
    ensures var r := DecodeRows(cols, done, |rows|, EmitRows(rows, true, big) + rest, big2, big != big2);
      && r.Some? && r.value.1 == rest && ValueRows(r.value.0.1) == ValueRows(done) + ArrivesRows(rows, big != big2)
      && ReusableAll(r.value.0.0) && BlankAll(r.value.0.0) == BlankAll(cols)
    decreases rows, 2
  {
    hide *;
    if rows == [] {
      NoRowsRead(cols, done, rest, big, big2);
    } else {
      FirstRowFits(rows, cols, big, big2);
      RunFirstRow(rows, cols, done, rest, big, big2);
      ArrivesFirst(rows, big != big2);
      var more := EmitRows(rows[1..], true, big);
      var cells := rows[0].cells;
      ReusableAllFresh(cols);
      ReadsAll(cells, cols, more + rest, big, big2);
      var cols1 := DecodeAll(cols, EmitAll(cells, true, big) + (more + rest), big2, big != big2).value.0;
      FitsRowsSame(rows[1..], cols, cols1);
      ReadsRows(rows[1..], cols1, done + [RRow(cols1)], rest, big, big2);
      ValueSnoc(done, RRow(cols1));
      var row := [Row(ArrivesAll(cells, big != big2))];
      assert ValueRows(done) + row + ArrivesRows(rows[1..], big != big2)
          == ValueRows(done) + (row + ArrivesRows(rows[1..], big != big2));
    }
  }
}
