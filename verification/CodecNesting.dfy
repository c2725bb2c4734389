/** Sequences inside sequences, at any depth: the column variables of a sequence are read again
    for every row, and a sequence among them keeps the rows it has. */
module CodecNesting {
  import opened Wrappers
  import opened Bytes
  import opened D4Data
  import opened CodecRoundTrip
  import opened CodecGroups
  import opened CodecByteOrder

  // ---------------------------------------------------------------- receivers

  /** No sequence in the variable holds rows, except inside vectors, whose elements are copied
      anew each time. */
  predicate Clean(v: Recv)
    decreases v, 0
  {
    match v
    case RFixed(_, _) => true
    case RText(_, _) => true
    case RVector(_, _, _) => true
    case RStructure(ms) => CleanAll(ms)
    case RSequence(_, _, rows) => rows == []
  }

  predicate CleanAll(vs: seq<Recv>)
    decreases vs, 1
  {
    vs == [] || (Clean(vs[0]) && CleanAll(vs[1..]))
  }

  /** What every variable is like at any time: prototypes are never read into, and columns only
      when there are rows. */
  predicate Sane(v: Recv)
    decreases v, 0
  {
    match v
    case RFixed(_, _) => true
    case RText(_, _) => true
    case RVector(_, proto, _) => Sane(proto) && Clean(proto)
    case RStructure(ms) => SaneAll(ms)
    case RSequence(cols, _, rows) => SaneAll(cols) && (rows == [] ==> CleanAll(cols))
  }

  predicate SaneAll(vs: seq<Recv>)
    decreases vs, 1
  {
    vs == [] || (Sane(vs[0]) && SaneAll(vs[1..]))
  }

  // ---------------------------------------------------------------- values

  /** The value leaves no rows behind in the variable that it is read into. */
  predicate Quiet(d: Data)
    decreases d, 0
  {
    match d
    case Fixed(_) => true
    case Text(_, _) => true
    case Vector(_) => true
    case Structure(ms) => QuietSent(ms)
    case Sequence(rows) => rows == []
  }

  predicate QuietAll(ds: seq<Data>)
    decreases ds, 1
  {
    ds == [] || (Quiet(ds[0]) && QuietAll(ds[1..]))
  }

  predicate QuietSent(ms: seq<Member>)
    decreases ms, 1
  {
    ms == [] || (QuietMember(ms[0]) && QuietSent(ms[1..]))
  }

  predicate QuietMember(m: Member)
    decreases m, 0
  {
    m.send ==> Quiet(m.data)
  }

  /** In every sequence, all rows but the last leave nothing behind. */
  predicate Tame(d: Data)
    decreases d, 0
  {
    match d
    case Fixed(_) => true
    case Text(_, _) => true
    case Vector(es) => TameAll(es)
    case Structure(ms) => TameSent(ms)
    case Sequence(rows) => TameRows(rows)
  }

  predicate TameAll(ds: seq<Data>)
    decreases ds, 1
  {
    ds == [] || (Tame(ds[0]) && TameAll(ds[1..]))
  }

  predicate TameSent(ms: seq<Member>)
    decreases ms, 1
  {
    ms == [] || (TameMember(ms[0]) && TameSent(ms[1..]))
  }

  predicate TameMember(m: Member)
    decreases m, 0
  {
    m.send ==> Tame(m.data)
  }

  predicate TameRows(rows: seq<Row>)
    decreases rows, 2
  {
    rows == []
    || (TameAll(rows[0].cells) && (|rows| > 1 ==> QuietAll(rows[0].cells)) && TameRows(rows[1..]))
  }

  // ---------------------------------------------------------------- one reading

  /** What reading does to a variable in any state: exactly the value's bytes are consumed, the
      variable is clean afterwards if it was and the value leaves nothing behind, and the value
      is there as it was sent if the variable was clean and the value is tame. */
  predicate After(r: Reading<Recv>, v: Recv, d: Data, twiddle: bool, rest: seq<Byte>) {
    && r.Some? && r.value.1 == rest && Blank(r.value.0) == Blank(v) && Sane(r.value.0)
    && (Clean(r.value.0) <==> Clean(v) && Quiet(d))
    && (Value(r.value.0) == Arrives(d, twiddle) <==> Clean(v) && Tame(d))
  }

  predicate AfterAll(r: Reading<seq<Recv>>, vs: seq<Recv>, ds: seq<Data>, twiddle: bool, rest: seq<Byte>) {
    && r.Some? && r.value.1 == rest && BlankAll(r.value.0) == BlankAll(vs) && SaneAll(r.value.0)
    && (CleanAll(r.value.0) <==> CleanAll(vs) && QuietAll(ds))
    && (ValueAll(r.value.0) == ArrivesAll(ds, twiddle) <==> CleanAll(vs) && TameAll(ds))
  }

  predicate AfterSent(r: Reading<seq<Recv>>, vs: seq<Recv>, ms: seq<Member>, twiddle: bool, rest: seq<Byte>) {
    && r.Some? && r.value.1 == rest && BlankAll(r.value.0) == BlankAll(vs) && SaneAll(r.value.0)
    && (CleanAll(r.value.0) <==> CleanAll(vs) && QuietSent(ms))
    && (ValueMembers(r.value.0) == ArrivesSent(ms, twiddle) <==> CleanAll(vs) && TameSent(ms))
  }

  predicate AfterRows(r: Reading<(seq<Recv>, seq<RRow>)>, cols: seq<Recv>, done: seq<RRow>, rows: seq<Row>,
                      twiddle: bool, rest: seq<Byte>) {
    && r.Some? && r.value.1 == rest && BlankAll(r.value.0.0) == BlankAll(cols) && SaneAll(r.value.0.0)
    && |r.value.0.1| == |done| + |rows| && done <= r.value.0.1 && (rows == [] ==> r.value.0.0 == cols)
    && (ValueRows(r.value.0.1) == ValueRows(done) + ArrivesRows(rows, twiddle)
        <==> rows == [] || (CleanAll(cols) && TameRows(rows)))
  }

  lemma {:induction false} ReadAfter(d: Data, v: Recv, rest: seq<Byte>, big: bool, big2: bool)
    requires Fits(d, v) && Sane(v) && CountsAgree(d, big, big2)
    ensures After(Decode(v, Emit(d, true, big) + rest, big2, big != big2), v, d, big != big2, rest)
    decreases d, 0
  {
    match d
    case Fixed(b) => ReadsFixed(b, v, rest, big, big2);
    case Text(o, b) => ReadsText(o, b, v, rest, big, big2);
    case Vector(es) => CopiesAfter(es, v.proto, rest, big, big2);
    case Structure(ms) => SentAfter(ms, v.members, rest, big, big2);
    case Sequence(rows) =>
      RowsAfter(rows, v.columns, v.rows, rest, big, big2);
      SequenceAfter(rows, v, rest, big, big2);
  }

  lemma SequenceAfter(rows: seq<Row>, v: Recv, rest: seq<Byte>, big: bool, big2: bool)
    requires Fits(Sequence(rows), v) && Sane(v) && SameCount(|rows|, big, big2)
    requires AfterRows(DecodeRows(v.columns, v.rows, |rows|, EmitRows(rows, true, big) + rest, big2, big != big2),
                       v.columns, v.rows, rows, big != big2, rest)
    ensures After(Decode(v, Emit(Sequence(rows), true, big) + rest, big2, big != big2), v, Sequence(rows),
                  big != big2, rest)
  {
    var input := EmitRows(rows, true, big) + rest;
    DecodesSequence(rows, v, rest, big, big2);
    var r := DecodeRows(v.columns, v.rows, |rows|, input, big2, big != big2);
    SequenceFromRows(rows, v, r, big != big2, rest);
  }

  lemma DecodesSequence(rows: seq<Row>, v: Recv, rest: seq<Byte>, big: bool, big2: bool)
    requires v.RSequence? && |rows| < TWO_TO_63 && SameCount(|rows|, big, big2)
    ensures Decode(v, Emit(Sequence(rows), true, big) + rest, big2, big != big2) ==
      match DecodeRows(v.columns, v.rows, |rows|, EmitRows(rows, true, big) + rest, big2, big != big2)
      case None => None
      case Some((got, left)) => Some((RSequence(got.0, |rows|, got.1), left))
  {
    hide DecodeRows, EmitRows;
    Assoc(Count(|rows|, big), EmitRows(rows, true, big), rest);
    CountReads(|rows|, big, big2, EmitRows(rows, true, big) + rest);
  }

  lemma SequenceFromRows(rows: seq<Row>, v: Recv, r: Reading<(seq<Recv>, seq<RRow>)>, twiddle: bool, rest: seq<Byte>)
    requires v.RSequence? && Sane(v) && AfterRows(r, v.columns, v.rows, rows, twiddle, rest)
    ensures After(Some((RSequence(r.value.0.0, |rows|, r.value.0.1), r.value.1)), v, Sequence(rows), twiddle, rest)
  {
    hide ArrivesRows, ValueRows, TameRows, CleanAll, SaneAll, BlankAll;
    ValueRowsAt(r.value.0.1);
    ValueRowsAt(v.rows);
    ArrivesRowsSize(rows, twiddle);
    NothingArrives(twiddle);
    if v.rows == [] {
      assert ValueRows(v.rows) + ArrivesRows(rows, twiddle) == ArrivesRows(rows, twiddle);
    }
  }

  lemma NothingArrives(twiddle: bool)
    ensures ArrivesRows([], twiddle) == [] && TameRows([])
  {
  }

  lemma {:induction false} AllAfter(ds: seq<Data>, vs: seq<Recv>, rest: seq<Byte>, big: bool, big2: bool)
    requires FitsAll(ds, vs) && SaneAll(vs) && CountsAgreeAll(ds, big, big2)
    ensures AfterAll(DecodeAll(vs, EmitAll(ds, true, big) + rest, big2, big != big2), vs, ds, big != big2, rest)
    decreases ds, 1
  {
    if ds != [] {
      var more := EmitAll(ds[1..], true, big);
      Assoc(Emit(ds[0], true, big), more, rest);
      ReadAfter(ds[0], vs[0], more + rest, big, big2);
      AllAfter(ds[1..], vs[1..], rest, big, big2);
      var v := Decode(vs[0], Emit(ds[0], true, big) + (more + rest), big2, big != big2).value.0;
      var tail := DecodeAll(vs[1..], more + rest, big2, big != big2).value.0;
      AllCons(v, tail, ds, big != big2);
    }
  }

  lemma AllCons(v: Recv, tail: seq<Recv>, ds: seq<Data>, twiddle: bool)
    requires ds != []
    ensures ValueAll([v] + tail) == ArrivesAll(ds, twiddle)
      <==> Value(v) == Arrives(ds[0], twiddle) && ValueAll(tail) == ArrivesAll(ds[1..], twiddle)
    ensures BlankAll([v] + tail) == [Blank(v)] + BlankAll(tail)
    ensures CleanAll([v] + tail) <==> Clean(v) && CleanAll(tail)
    ensures SaneAll([v] + tail) <==> Sane(v) && SaneAll(tail)
  {
    hide Value, Arrives, Blank, Clean, Sane;
    var vs := [v] + tail;
    assert vs[0] == v && vs[1..] == tail;
    var a, b := ValueAll(tail), ArrivesAll(ds[1..], twiddle);
    assert ValueAll(vs) == [Value(v)] + a && ArrivesAll(ds, twiddle) == [Arrives(ds[0], twiddle)] + b;
    hide ValueAll, ArrivesAll;
    if [Value(v)] + a == [Arrives(ds[0], twiddle)] + b { ConsEqual(Value(v), Arrives(ds[0], twiddle), a, b); }
  }

  lemma {:induction false} CopiesAfter(es: seq<Data>, proto: Recv, rest: seq<Byte>, big: bool, big2: bool)
    requires FitsCopies(es, proto) && Sane(proto) && Clean(proto) && CountsAgreeAll(es, big, big2)
    ensures var r := DecodeCopies(proto, |es|, EmitAll(es, true, big) + rest, big2, big != big2);
      r.Some? && r.value.1 == rest && (ValueAll(r.value.0) == ArrivesAll(es, big != big2) <==> TameAll(es))
    decreases es, 1
  {
    if es != [] {
      var more := EmitAll(es[1..], true, big);
      Assoc(Emit(es[0], true, big), more, rest);
      ReadAfter(es[0], proto, more + rest, big, big2);
      CopiesAfter(es[1..], proto, rest, big, big2);
      var v := Decode(proto, Emit(es[0], true, big) + (more + rest), big2, big != big2).value.0;
      AllCons(v, DecodeCopies(proto, |es| - 1, more + rest, big2, big != big2).value.0, es, big != big2);
    }
  }

  lemma {:induction false} SentAfter(ms: seq<Member>, vs: seq<Recv>, rest: seq<Byte>, big: bool, big2: bool)
    requires FitsSent(ms, vs) && SaneAll(vs) && CountsAgreeSent(ms, big, big2)
    ensures AfterSent(DecodeAll(vs, EmitSent(ms, true, big) + rest, big2, big != big2), vs, ms, big != big2, rest)
    decreases ms, 1
  {
    if ms != [] {
      var more := EmitSent(ms[1..], true, big);
      Assoc(EmitMember(ms[0], true, big), more, rest);
      if ms[0].send {
        MemberAfter(ms[0], vs[0], more + rest, big, big2);
        SentAfter(ms[1..], vs[1..], rest, big, big2);
        var v := Decode(vs[0], Emit(ms[0].data, true, big) + (more + rest), big2, big != big2).value.0;
        SentCons(v, DecodeAll(vs[1..], more + rest, big2, big != big2).value.0, ms, big != big2);
      } else {
        assert EmitSent(ms, true, big) == more;
        assert ArrivesSent(ms, big != big2) == ArrivesSent(ms[1..], big != big2);
        SentAfter(ms[1..], vs, rest, big, big2);
      }
    }
  }

  lemma SentCons(v: Recv, tail: seq<Recv>, ms: seq<Member>, twiddle: bool)
    requires ms != [] && ms[0].send
    ensures ValueMembers([v] + tail) == ArrivesSent(ms, twiddle)
      <==> Value(v) == Arrives(ms[0].data, twiddle) && ValueMembers(tail) == ArrivesSent(ms[1..], twiddle)
    ensures BlankAll([v] + tail) == [Blank(v)] + BlankAll(tail)
    ensures CleanAll([v] + tail) <==> Clean(v) && CleanAll(tail)
    ensures SaneAll([v] + tail) <==> Sane(v) && SaneAll(tail)
  {
    hide Value, Arrives, Blank, Clean, Sane;
    var vs := [v] + tail;
    assert vs[0] == v && vs[1..] == tail;
    var x, y := Member(true, Value(v)), Member(true, Arrives(ms[0].data, twiddle));
    var a, b := ValueMembers(tail), ArrivesSent(ms[1..], twiddle);
    assert ValueMembers(vs) == [x] + a && ArrivesSent(ms, twiddle) == [y] + b;
    hide ValueMembers, ArrivesSent;
    if [x] + a == [y] + b { ConsEqual(x, y, a, b); }
  }

  lemma {:induction false} MemberAfter(m: Member, v: Recv, rest: seq<Byte>, big: bool, big2: bool)
    requires m.send && FitsMember(m, v) && Sane(v) && CountsAgreeMember(m, big, big2)
    ensures After(Decode(v, Emit(m.data, true, big) + rest, big2, big != big2), v, m.data, big != big2, rest)
    decreases m, 0
  {
    ReadAfter(m.data, v, rest, big, big2);
  }

  lemma {:induction false} RowsAfter(rows: seq<Row>, cols: seq<Recv>, done: seq<RRow>, rest: seq<Byte>,
                                     big: bool, big2: bool)
    requires FitsRows(rows, cols) && SaneAll(cols) && CountsAgreeRows(rows, big, big2)
    ensures AfterRows(DecodeRows(cols, done, |rows|, EmitRows(rows, true, big) + rest, big2, big != big2),
                      cols, done, rows, big != big2, rest)
    decreases rows, 2
  {
    if rows == [] {
      NoRowsAfter(cols, done, rest, big, big2);
    } else {
      var tail := EmitRows(rows[1..], true, big) + rest;
      assert FitsAll(rows[0].cells, cols) && FitsRows(rows[1..], cols);
      assert CountsAgreeAll(rows[0].cells, big, big2) && CountsAgreeRows(rows[1..], big, big2);
      hide *;
      AllAfter(rows[0].cells, cols, tail, big, big2);
      var r := DecodeAll(cols, EmitAll(rows[0].cells, true, big) + tail, big2, big != big2);
      AfterAllIs(r, cols, rows[0].cells, big != big2, tail);
      FitsRowsSame(rows[1..], cols, r.value.0);
      RowsAfter(rows[1..], r.value.0, done + [RRow(r.value.0)], rest, big, big2);
      RunFirstRow(rows, cols, done, rest, big, big2);
      MoreRowsAfter(rows, cols, r, done, tail, rest, DecodeRows(cols, done, |rows|, EmitRows(rows, true, big) + rest,
                                                          big2, big != big2), big != big2);
    }
  }

  lemma AfterAllIs(r: Reading<seq<Recv>>, vs: seq<Recv>, ds: seq<Data>, twiddle: bool, rest: seq<Byte>)
    requires AfterAll(r, vs, ds, twiddle, rest)
    ensures r.Some? && r.value.1 == rest && BlankAll(r.value.0) == BlankAll(vs) && SaneAll(r.value.0)
  {
  }

  lemma NoRowsAfter(cols: seq<Recv>, done: seq<RRow>, rest: seq<Byte>, big: bool, big2: bool)
    requires SaneAll(cols)
    ensures AfterRows(DecodeRows(cols, done, 0, EmitRows([], true, big) + rest, big2, big != big2),
                      cols, done, [], big != big2, rest)
  {
    assert EmitRows([], true, big) + rest == rest;
    assert ValueRows(done) + [] == ValueRows(done);
  }

  /** One row and then the others. */
  lemma MoreRowsAfter(rows: seq<Row>, cols: seq<Recv>, r: Reading<seq<Recv>>, done: seq<RRow>, tail: seq<Byte>,
                      rest: seq<Byte>, all: Reading<(seq<Recv>, seq<RRow>)>, twiddle: bool)
    requires rows != [] && AfterAll(r, cols, rows[0].cells, twiddle, tail)
    requires AfterRows(all, r.value.0, done + [RRow(r.value.0)], rows[1..], twiddle, rest)
    ensures AfterRows(all, cols, done, rows, twiddle, rest)
  {
    var one, got := RRow(r.value.0), all.value.0.1;
    assert |rows[1..]| == |rows| - 1 && (rows[1..] == [] <==> |rows| == 1);
    assert TameRows(rows) <==>
      TameAll(rows[0].cells) && (|rows| > 1 ==> QuietAll(rows[0].cells)) && TameRows(rows[1..]);
    assert rows[1..] == [] ==> TameRows(rows[1..]);
    hide TameRows, TameAll, QuietAll, CleanAll, SaneAll, BlankAll, ValueAll, ArrivesAll;
    assert done <= done + [one] <= got;
    RowsEqual(rows, done, one, got, twiddle);
  }

  lemma RowsEqual(rows: seq<Row>, done: seq<RRow>, one: RRow, got: seq<RRow>, twiddle: bool)
    requires rows != [] && done + [one] <= got
    ensures ValueRows(got) == ValueRows(done) + ArrivesRows(rows, twiddle)
      <==> ValueAll(one.cells) == ArrivesAll(rows[0].cells, twiddle)
           && ValueRows(got) == ValueRows(done + [one]) + ArrivesRows(rows[1..], twiddle)
  {
    hide *;
    if ValueRows(got) == ValueRows(done) + ArrivesRows(rows, twiddle) {
      FirstArrived(rows, done, one, got, twiddle);
    } else {
      ArrivesFirst(rows, twiddle);
      ValueSnoc(done, one);
      var row := Row(ArrivesAll(rows[0].cells, twiddle));
      assert ValueRows(done) + [row] + ArrivesRows(rows[1..], twiddle)
          == ValueRows(done) + ([row] + ArrivesRows(rows[1..], twiddle));
    }
  }

  /** Between hosts that agree about lengths and counts, a value is read to its end whatever is
      nested in it; into a variable that nothing has been read into it arrives as it was sent if
      and only if in every sequence in it, at any depth, no row but the last has a sequence with
      rows outside a vector. */
  lemma NestingExact(d: Data, v: Recv, rest: seq<Byte>, big: bool, big2: bool)
    requires Fits(d, v) && Sane(v) && Clean(v) && (big == big2 || CountsAgree(d, big, big2))
    ensures var r := Decode(v, Emit(d, true, big) + rest, big2, big != big2);
      r.Some? && r.value.1 == rest && (Value(r.value.0) == Arrives(d, big != big2) <==> Tame(d))
  {
    if big == big2 { SameOrder(d, big); }
    ReadAfter(d, v, rest, big, big2);
  }

  // ---------------------------------------------------------------- data sets

  predicate UnreadGroup(r: RGroup)
    decreases r, 0
  {
    SaneAll(r.vars) && CleanAll(r.vars) && UnreadGroups(r.groups)
  }

  predicate UnreadGroups(rs: seq<RGroup>)
    decreases rs, 1
  {
    rs == [] || (UnreadGroup(rs[0]) && UnreadGroups(rs[1..]))
  }

  predicate TameVars(ds: seq<Data>) { forall d :: d in ds ==> Tame(d) }

  lemma TameCons(d: Data, ds: seq<Data>)
    ensures TameVars([d] + ds) <==> Tame(d) && TameVars(ds)
  {
    var all := [d] + ds;
    assert all[0] in all && forall i :: 0 <= i < |ds| ==> all[i + 1] == ds[i];
    if TameVars(all) {
      forall x | x in ds ensures Tame(x) { assert x in all; }
    }
  }

  lemma TameConcat(a: seq<Data>, b: seq<Data>)
    ensures TameVars(a + b) <==> TameVars(a) && TameVars(b)
  {
    if TameVars(a + b) {
      forall x | x in a ensures Tame(x) { assert x in a + b; }
      forall x | x in b ensures Tame(x) { assert x in a + b; }
    }
  }

  /** One variable and its checksum, and then the others. */
  lemma VarNests(vs: seq<Member>, rs: seq<Recv>, rest: seq<Byte>, big: bool, big2: bool)
    requires vs != [] && vs[0].send && rs != []
    requires Fits(vs[0].data, rs[0]) && Sane(rs[0]) && Clean(rs[0]) && CountsAgree(vs[0].data, big, big2)
    requires var r := DecodeVars(rs[1..], EmitVars(vs[1..], true, big) + rest, big2, big != big2);
      r.Some? && r.value.1 == rest
    ensures var more := DecodeVars(rs[1..], EmitVars(vs[1..], true, big) + rest, big2, big != big2);
      var r := DecodeVars(rs, EmitVars(vs, true, big) + rest, big2, big != big2);
      && r.Some? && r.value.1 == rest
      && (VarValues(r.value.0) == ExpectedVars(vs, big, big2)
          <==> Tame(vs[0].data) && VarValues(more.value.0) == ExpectedVars(vs[1..], big, big2))
  {
    var d := vs[0].data;
    var sum := ChecksumBytes(Checksum(Payload(d)), big);
    var tail := EmitVars(vs[1..], true, big) + rest;
    FirstExpected(vs, big, big2);
    hide *;
    FirstVar(vs, rest, big);
    NestingExact(d, rs[0], sum + tail, big, big2);
    DecodeFirstThen(rs, EmitVars(vs, true, big) + rest, big2, big != big2);
    DecodeFirst(rs, EmitVars(vs, true, big) + rest, big2, big != big2);
    assert (sum + tail)[..4] == sum && (sum + tail)[4..] == tail;
    var got := Decode(rs[0], EmitVars(vs, true, big) + rest, big2, big != big2).value.0;
    var more := DecodeVars(rs[1..], tail, big2, big != big2).value.0;
    var x, y := (Value(got), WordValue(sum, big2)), (Arrives(d, big != big2), WordValue(sum, big2));
    var a, b := VarValues(more), ExpectedVars(vs[1..], big, big2);
    if [x] + a == [y] + b { ConsEqual(x, y, a, b); }
  }

  lemma FirstExpected(vs: seq<Member>, big: bool, big2: bool)
    requires vs != [] && vs[0].send
    ensures ExpectedVars(vs, big, big2)
      == [(Arrives(vs[0].data, big != big2), WordValue(ChecksumBytes(Checksum(Payload(vs[0].data)), big), big2))]
         + ExpectedVars(vs[1..], big, big2)
  {
    hide Arrives, WordValue, ChecksumBytes;
  }

  lemma DecodeFirstThen(rs: seq<Recv>, input: seq<Byte>, big: bool, twiddle: bool)
    requires rs != []
    ensures var first := Decode(rs[0], input, big, twiddle);
      first.Some? && |first.value.1| >= 4 ==>
        var more := DecodeVars(rs[1..], first.value.1[4..], big, twiddle);
        more.Some? ==>
          var all := DecodeVars(rs, input, big, twiddle); all.Some? && all.value.1 == more.value.1
  {
    hide Decode, WordValue;
  }

  lemma {:induction false} VarsNest(vs: seq<Member>, rs: seq<Recv>, rest: seq<Byte>, big: bool, big2: bool)
    requires FitsSent(vs, rs) && SaneAll(rs) && CleanAll(rs)
    requires forall d :: d in SentOnly(vs) ==> CountsAgree(d, big, big2)
    ensures var r := DecodeVars(rs, EmitVars(vs, true, big) + rest, big2, big != big2);
      && r.Some? && r.value.1 == rest
      && (VarValues(r.value.0) == ExpectedVars(vs, big, big2) <==> TameVars(SentOnly(vs)))
    decreases |vs|
  {
    hide Decode, Emit, Arrives, CountsAgree, Fits, Sane, Clean, Tame, Value, EmitVar, WordValue;
    if vs != [] {
      forall d | d in SentOnly(vs[1..]) ensures d in SentOnly(vs) {}
      if vs[0].send {
        assert SentOnly(vs) == [vs[0].data] + SentOnly(vs[1..]);
        assert vs[0].data in SentOnly(vs) && FitsMember(vs[0], rs[0]);
        TameCons(vs[0].data, SentOnly(vs[1..]));
        VarsNest(vs[1..], rs[1..], rest, big, big2);
        VarNests(vs, rs, rest, big, big2);
      } else {
        assert SentOnly(vs) == SentOnly(vs[1..]);
        assert EmitVars(vs, true, big) == EmitVars(vs[1..], true, big);
        assert ExpectedVars(vs, big, big2) == ExpectedVars(vs[1..], big, big2);
        VarsNest(vs[1..], rs, rest, big, big2);
      }
    }
  }

  /** A closed data set is read to its end whatever is nested in it, and arrives as it was sent
      if and only if all its sent variables are tame. */
  lemma {:induction false} GroupNestingExact(g: Group, r: RGroup, rest: seq<Byte>, big: bool, big2: bool)
    requires FitsGroup(g, r) && UnreadGroup(r) && Closed(g) && CountsAgreeGroup(g, big, big2)
    ensures var q := DecodeGroup(r, EmitGroup(g, true, big) + rest, big2, big != big2);
      && q.Some? && q.value.1 == rest
      && (Values(q.value.0) == Expected(g, big, big2) <==> TameVars(SentVars(g)))
    decreases g, 0
  {
    hide TameVars, CountsAgree;
    Assoc(EmitGroups(g.groups, true, big), EmitVars(g.vars, true, big), rest);
    forall d | d in SentVarsOf(g.groups) || d in SentOnly(g.vars) ensures d in SentVars(g) {}
    GroupsNest(g.groups, r.groups, EmitVars(g.vars, true, big) + rest, big, big2);
    VarsNest(g.vars, r.vars, rest, big, big2);
    TameConcat(SentVarsOf(g.groups), SentOnly(g.vars));
  }

  lemma {:induction false} GroupsNest(gs: seq<Group>, rs: seq<RGroup>, rest: seq<Byte>, big: bool, big2: bool)
    requires FitsGroups(gs, rs) && UnreadGroups(rs) && ClosedAll(gs)
    requires forall d :: d in SentVarsOf(gs) ==> CountsAgree(d, big, big2)
    ensures var q := DecodeGroups(rs, EmitGroups(gs, true, big) + rest, big2, big != big2);
      && q.Some? && q.value.1 == rest
      && (ValuesOf(q.value.0) == ExpectedOf(gs, big, big2) <==> TameVars(SentVarsOf(gs)))
    decreases gs, 1
  {
    if gs == [] {
      hide CountsAgree;
      NoVarsTame();
    } else {
      hide *;
      var g, more := gs[0], EmitGroups(gs[1..], true, big) + rest;
      FirstGroup(gs, rs, rest, big, big2);
      AgreeParts(gs, big, big2);
      if g.send {
        GroupNestingExact(g, rs[0], more, big, big2);
        GroupsNest(gs[1..], rs[1..], rest, big, big2);
        DecodeGroupFirst(rs, EmitGroup(g, true, big) + more, big2, big != big2);
        var q := DecodeGroup(rs[0], EmitGroup(g, true, big) + more, big2, big != big2).value.0;
        GroupsCons(q, DecodeGroups(rs[1..], more, big2, big != big2).value.0, gs, big, big2);
        TameConcat(SentVars(g), SentVarsOf(gs[1..]));
      } else {
        GroupsNest(gs[1..], rs, rest, big, big2);
      }
    }
  }

  /** The stream and the receivers of a list of groups begin with those of the first group, if
      it is sent. */
  lemma FirstGroup(gs: seq<Group>, rs: seq<RGroup>, rest: seq<Byte>, big: bool, big2: bool)
    requires gs != [] && FitsGroups(gs, rs) && UnreadGroups(rs) && ClosedAll(gs)
    ensures ClosedAll(gs[1..])
    ensures gs[0].send ==>
      && rs != [] && FitsGroup(gs[0], rs[0]) && UnreadGroup(rs[0]) && Closed(gs[0])
      && FitsGroups(gs[1..], rs[1..]) && UnreadGroups(rs[1..])
      && EmitGroups(gs, true, big) + rest == EmitGroup(gs[0], true, big) + (EmitGroups(gs[1..], true, big) + rest)
      && SentVarsOf(gs) == SentVars(gs[0]) + SentVarsOf(gs[1..])
    ensures !gs[0].send ==>
      && FitsGroups(gs[1..], rs) && EmitGroups(gs, true, big) == EmitGroups(gs[1..], true, big)
      && SentVarsOf(gs) == SentVarsOf(gs[1..]) && ExpectedOf(gs, big, big2) == ExpectedOf(gs[1..], big, big2)
  {
    hide FitsGroup, UnreadGroup, Closed, Expected, Stream, EmitVar;
    Assoc(EmitGroup(gs[0], true, big), EmitGroups(gs[1..], true, big), rest);
    if !gs[0].send {
      GroupStream(gs[0], true, big);
      NoStream(big);
    }
  }

  lemma NoStream(big: bool)
    ensures Stream([], true, big) == []
  {
  }

  lemma AgreeParts(gs: seq<Group>, big: bool, big2: bool)
    requires gs != [] && forall d :: d in SentVarsOf(gs) ==> CountsAgree(d, big, big2)
    ensures CountsAgreeGroup(gs[0], big, big2)
    ensures forall d :: d in SentVarsOf(gs[1..]) ==> CountsAgree(d, big, big2)
  {
    hide CountsAgree;
    forall d | d in SentVars(gs[0]) || d in SentVarsOf(gs[1..]) ensures d in SentVarsOf(gs) {}
  }

  lemma DecodeGroupFirst(rs: seq<RGroup>, input: seq<Byte>, big: bool, twiddle: bool)
    requires rs != []
    ensures DecodeGroups(rs, input, big, twiddle) ==
      match DecodeGroup(rs[0], input, big, twiddle)
      case None => None
      case Some((g, left)) =>
        match DecodeGroups(rs[1..], left, big, twiddle)
        case None => None
        case Some((gs, end)) => Some(([g] + gs, end))
  {
    hide DecodeGroup;
  }

  lemma NoVarsTame()
    ensures TameVars([])
  {
  }

  lemma GroupsCons(q: CheckedGroup, tail: seq<CheckedGroup>, gs: seq<Group>, big: bool, big2: bool)
    requires gs != [] && gs[0].send
    ensures ValuesOf([q] + tail) == ExpectedOf(gs, big, big2)
      <==> Values(q) == Expected(gs[0], big, big2) && ValuesOf(tail) == ExpectedOf(gs[1..], big, big2)
  {
    hide Values, Expected;
    var all := [q] + tail;
    assert all[0] == q && all[1..] == tail;
    var a, b := ValuesOf(tail), ExpectedOf(gs[1..], big, big2);
    assert ValuesOf(all) == [Values(q)] + a && ExpectedOf(gs, big, big2) == [Expected(gs[0], big, big2)] + b;
    hide ValuesOf, ExpectedOf;
    if [Values(q)] + a == [Expected(gs[0], big, big2)] + b { ConsEqual(Values(q), Expected(gs[0], big, big2), a, b); }
  }
}
