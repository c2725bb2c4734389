/** Between hosts of different byte order lengths and counts are not repaired: exactly which
    values arrive. */
module CodecByteOrder {
  import opened Wrappers
  import opened Bytes
  import opened D4Data
  import opened CodecRoundTrip
  import opened CodecGroups

  // ---------------------------------------------------------------- counts

  lemma {:induction false} LittleZero(n: nat)
    ensures forall i :: 0 <= i < n ==> Little(0, n)[i] == 0
  {
    if n > 0 { LittleZero(n - 1); }
  }

  lemma ZeroAgrees(big: bool, big2: bool)
    ensures SameCount(0, big, big2)
  {
    LittleZero(8);
    assert Little(0, 8) == Reversed(Little(0, 8));
  }

  /** On hosts of one byte order all counts agree. */
  lemma {:induction false} SameOrder(d: Data, big: bool)
    ensures CountsAgree(d, big, big)
    decreases d, 0
  {
    match d
    case Fixed(_) =>
    case Text(_, _) =>
    case Vector(es) => SameOrderAll(es, big);
    case Structure(ms) => SameOrderSent(ms, big);
    case Sequence(rows) => SameOrderRows(rows, big);
  }

  lemma {:induction false} SameOrderAll(ds: seq<Data>, big: bool)
    ensures CountsAgreeAll(ds, big, big)
    decreases ds, 1
  {
    if ds != [] {
      SameOrder(ds[0], big);
      SameOrderAll(ds[1..], big);
    }
  }

  lemma {:induction false} SameOrderRows(rows: seq<Row>, big: bool)
    ensures CountsAgreeRows(rows, big, big)
    decreases rows, 2
  {
    if rows != [] {
      SameOrderAll(rows[0].cells, big);
      SameOrderRows(rows[1..], big);
    }
  }

  lemma {:induction false} SameOrderSent(ms: seq<Member>, big: bool)
    ensures CountsAgreeSent(ms, big, big)
    decreases ms, 1
  {
    if ms != [] {
      SameOrderMember(ms[0], big);
      SameOrderSent(ms[1..], big);
    }
  }

  lemma {:induction false} SameOrderMember(m: Member, big: bool)
    ensures CountsAgreeMember(m, big, big)
    decreases m, 0
  {
    SameOrder(m.data, big);
  }

  // ---------------------------------------------------------------- rows

  /** The loop over the rows of a sequence appends as many rows as it is told to. */
  lemma {:induction false} RowsAppended(cols: seq<Recv>, rows: seq<RRow>, n: nat, input: seq<Byte>,
                                        big: bool, twiddle: bool)
    ensures var r := DecodeRows(cols, rows, n, input, big, twiddle);
      r.Some? ==> |r.value.0.1| == |rows| + n && rows <= r.value.0.1
    decreases n
  {
    hide DecodeAll;
    if n > 0 {
      match DecodeAll(cols, input, big, twiddle) {
        case None =>
        case Some((cols1, rest)) => RowsAppended(cols1, rows + [RRow(cols1)], n - 1, rest, big, twiddle);
      }
    }
  }

  lemma {:induction false} ValueRowsAt(rows: seq<RRow>)
    ensures |ValueRows(rows)| == |rows|
    ensures forall i :: 0 <= i < |rows| ==> ValueRows(rows)[i] == Row(ValueAll(rows[i].cells))
    decreases |rows|
  {
    if rows != [] {
      ValueRowsAt(rows[1..]);
      hide ValueAll;
      forall i | 0 <= i < |rows| ensures ValueRows(rows)[i] == Row(ValueAll(rows[i].cells)) {
        if i > 0 { assert ValueRows(rows)[i] == ValueRows(rows[1..])[i - 1] && rows[i] == rows[1..][i - 1]; }
      }
    }
  }

  lemma {:induction false} ArrivesRowsSize(rows: seq<Row>, twiddle: bool)
    ensures |ArrivesRows(rows, twiddle)| == |rows|
    decreases |rows|
  {
    if rows != [] { ArrivesRowsSize(rows[1..], twiddle); }
  }

  // ---------------------------------------------------------------- only if the counts agree

  /** The value came through. */
  predicate Came(r: Reading<Recv>, value: Data) { r.Some? && Value(r.value.0) == value }

  lemma {:induction false} CameAgrees(d: Data, v: Recv, rest: seq<Byte>, big: bool, big2: bool)
    requires Fits(d, v) && Fresh(v)
    requires Came(Decode(v, Emit(d, true, big) + rest, big2, big != big2), Arrives(d, big != big2))
    ensures CountsAgree(d, big, big2)
    decreases d, 0
  {
    match d
    case Fixed(_) =>
    case Text(o, b) => TextAgrees(o, b, v, rest, big, big2);
    case Vector(es) => CopiesAgree(es, v.proto, rest, big, big2);
    case Structure(ms) => SentAgrees(ms, v.members, rest, big, big2);
    case Sequence(rows) =>
      SequenceCount(rows, v, rest, big, big2);
      RowsAgree(rows, v.columns, [], rest, big, big2);
  }

  lemma TextAgrees(o: bool, b: seq<Byte>, v: Recv, rest: seq<Byte>, big: bool, big2: bool)
    requires Fits(Text(o, b), v)
    requires Came(Decode(v, Emit(Text(o, b), true, big) + rest, big2, big != big2), Text(o, b))
    ensures SameCount(|b|, big, big2)
  {
    Assoc(Count(|b|, big), b, rest);
    CountReads(|b|, big, big2, b + rest);
  }

  /** The number of rows that arrive is the count as the reader sees it. */
  lemma SequenceCount(rows: seq<Row>, v: Recv, rest: seq<Byte>, big: bool, big2: bool)
    requires Fits(Sequence(rows), v) && Fresh(v)
    requires Came(Decode(v, Emit(Sequence(rows), true, big) + rest, big2, big != big2),
                  Arrives(Sequence(rows), big != big2))
    ensures SameCount(|rows|, big, big2)
    ensures var r := DecodeRows(v.columns, [], |rows|, EmitRows(rows, true, big) + rest, big2, big != big2);
      r.Some? && ValueRows(r.value.0.1) == [] + ArrivesRows(rows, big != big2)
  {
    hide DecodeRows, EmitRows, ArrivesRows, ValueRows;
    var body := EmitRows(rows, true, big) + rest;
    Assoc(Count(|rows|, big), EmitRows(rows, true, big), rest);
    CountReads(|rows|, big, big2, body);
    var n := ReadCount(Count(|rows|, big) + body, big2).value.0;
    var m := if n < 0 then 0 else n;
    RowsAppended(v.columns, [], m, body, big2, big != big2);
    ValueRowsAt(DecodeRows(v.columns, [], m, body, big2, big != big2).value.0.1);
    ArrivesRowsSize(rows, big != big2);
    ZeroAgrees(big, big2);
    assert [] + ArrivesRows(rows, big != big2) == ArrivesRows(rows, big != big2);
  }

  lemma {:induction false} AllAgree(ds: seq<Data>, vs: seq<Recv>, rest: seq<Byte>, big: bool, big2: bool)
    requires FitsAll(ds, vs) && FreshAll(vs)
    requires var r := DecodeAll(vs, EmitAll(ds, true, big) + rest, big2, big != big2);
      r.Some? && ValueAll(r.value.0) == ArrivesAll(ds, big != big2)
    ensures CountsAgreeAll(ds, big, big2)
    decreases ds, 1
  {
    if ds != [] {
      var more := EmitAll(ds[1..], true, big);
      var r := DecodeAll(vs, EmitAll(ds, true, big) + rest, big2, big != big2).value.0;
      Assoc(Emit(ds[0], true, big), more, rest);
      assert ValueAll(r) == [Value(r[0])] + ValueAll(r[1..]);
      assert ArrivesAll(ds, big != big2) == [Arrives(ds[0], big != big2)] + ArrivesAll(ds[1..], big != big2);
      ConsEqual(Value(r[0]), Arrives(ds[0], big != big2), ValueAll(r[1..]), ArrivesAll(ds[1..], big != big2));
      CameAgrees(ds[0], vs[0], more + rest, big, big2);
      Reads(ds[0], vs[0], more + rest, big, big2);
      AllAgree(ds[1..], vs[1..], rest, big, big2);
    }
  }

  lemma ConsEqual<T>(a: T, b: T, s: seq<T>, t: seq<T>)
    requires [a] + s == [b] + t
    ensures a == b && s == t
  {
    assert ([a] + s)[0] == a && ([b] + t)[0] == b && ([a] + s)[1..] == s && ([b] + t)[1..] == t;
  }

  lemma {:induction false} CopiesAgree(es: seq<Data>, proto: Recv, rest: seq<Byte>, big: bool, big2: bool)
    requires FitsCopies(es, proto) && Fresh(proto)
    requires var r := DecodeCopies(proto, |es|, EmitAll(es, true, big) + rest, big2, big != big2);
      r.Some? && ValueAll(r.value.0) == ArrivesAll(es, big != big2)
    ensures CountsAgreeAll(es, big, big2)
    decreases es, 1
  {
    if es != [] {
      var more := EmitAll(es[1..], true, big);
      var r := DecodeCopies(proto, |es|, EmitAll(es, true, big) + rest, big2, big != big2).value.0;
      Assoc(Emit(es[0], true, big), more, rest);
      assert ValueAll(r) == [Value(r[0])] + ValueAll(r[1..]);
      assert ArrivesAll(es, big != big2) == [Arrives(es[0], big != big2)] + ArrivesAll(es[1..], big != big2);
      ConsEqual(Value(r[0]), Arrives(es[0], big != big2), ValueAll(r[1..]), ArrivesAll(es[1..], big != big2));
      CameAgrees(es[0], proto, more + rest, big, big2);
      Reads(es[0], proto, more + rest, big, big2);
      CopiesAgree(es[1..], proto, rest, big, big2);
    }
  }

  lemma {:induction false} SentAgrees(ms: seq<Member>, vs: seq<Recv>, rest: seq<Byte>, big: bool, big2: bool)
    requires FitsSent(ms, vs) && FreshAll(vs)
    requires var r := DecodeAll(vs, EmitSent(ms, true, big) + rest, big2, big != big2);
      r.Some? && ValueMembers(r.value.0) == ArrivesSent(ms, big != big2)
    ensures CountsAgreeSent(ms, big, big2)
    decreases ms, 1
  {
    if ms != [] {
      var more := EmitSent(ms[1..], true, big);
      Assoc(EmitMember(ms[0], true, big), more, rest);
      if ms[0].send {
        var r := DecodeAll(vs, EmitSent(ms, true, big) + rest, big2, big != big2).value.0;
        var first := Member(true, Arrives(ms[0].data, big != big2));
        assert ValueMembers(r) == [Member(true, Value(r[0]))] + ValueMembers(r[1..]);
        assert ArrivesSent(ms, big != big2) == [first] + ArrivesSent(ms[1..], big != big2);
        ConsEqual(Member(true, Value(r[0])), first, ValueMembers(r[1..]), ArrivesSent(ms[1..], big != big2));
        MemberAgrees(ms[0], vs[0], more + rest, big, big2);
        ReadsMember(ms[0], vs[0], more + rest, big, big2);
        SentAgrees(ms[1..], vs[1..], rest, big, big2);
      } else {
        assert EmitSent(ms, true, big) == more;
        assert ArrivesSent(ms, big != big2) == ArrivesSent(ms[1..], big != big2);
        SentAgrees(ms[1..], vs, rest, big, big2);
      }
    }
  }

  lemma {:induction false} MemberAgrees(m: Member, v: Recv, rest: seq<Byte>, big: bool, big2: bool)
    requires m.send && FitsMember(m, v) && Fresh(v)
    requires Came(Decode(v, Emit(m.data, true, big) + rest, big2, big != big2), Arrives(m.data, big != big2))
    ensures CountsAgreeMember(m, big, big2)
    decreases m, 0
  {
    CameAgrees(m.data, v, rest, big, big2);
  }

  /** The first of several rows, and what the loop does with the others. */
  lemma FirstRow(rows: seq<Row>, cols: seq<Recv>, done: seq<RRow>, rest: seq<Byte>, big: bool, big2: bool)
    requires rows != []
    requires var r := DecodeRows(cols, done, |rows|, EmitRows(rows, true, big) + rest, big2, big != big2);
      r.Some? && ValueRows(r.value.0.1) == ValueRows(done) + ArrivesRows(rows, big != big2)
    ensures var r := DecodeAll(cols, EmitAll(rows[0].cells, true, big) + (EmitRows(rows[1..], true, big) + rest),
                               big2, big != big2);
      && r.Some? && ValueAll(r.value.0) == ArrivesAll(rows[0].cells, big != big2)
      && var r1 := DecodeRows(r.value.0, done + [RRow(r.value.0)], |rows| - 1, r.value.1, big2, big != big2);
      && r1.Some?
      && ValueRows(r1.value.0.1) == ValueRows(done + [RRow(r.value.0)]) + ArrivesRows(rows[1..], big != big2)
  {
    RunFirstRow(rows, cols, done, rest, big, big2);
    hide *;
    var tail := EmitRows(rows[1..], true, big) + rest;
    var r := DecodeAll(cols, EmitAll(rows[0].cells, true, big) + tail, big2, big != big2).value;
    var one := RRow(r.0);
    RowsAppended(r.0, done + [one], |rows| - 1, r.1, big2, big != big2);
    var got := DecodeRows(r.0, done + [one], |rows| - 1, r.1, big2, big != big2).value.0.1;
    FirstArrived(rows, done, one, got, big != big2);
  }

  lemma FirstArrived(rows: seq<Row>, done: seq<RRow>, one: RRow, got: seq<RRow>, twiddle: bool)
    requires rows != [] && ValueRows(got) == ValueRows(done) + ArrivesRows(rows, twiddle)
    requires done + [one] <= got
    ensures ValueAll(one.cells) == ArrivesAll(rows[0].cells, twiddle)
    ensures ValueRows(got) == ValueRows(done + [one]) + ArrivesRows(rows[1..], twiddle)
  {
    ArrivesFirst(rows, twiddle);
    hide *;
    ValueRowsAt(got);
    ValueRowsAt(done);
    ValueSnoc(done, one);
    assert got[|done|] == one;
    Split(ValueRows(got), ValueRows(done), Row(ArrivesAll(rows[0].cells, twiddle)), ArrivesRows(rows[1..], twiddle));
  }

  lemma Split<T>(all: seq<T>, a: seq<T>, x: T, b: seq<T>)
    requires all == a + ([x] + b)
    ensures |a| < |all| && all[|a|] == x && all == (a + [x]) + b
  {
  }

  lemma {:induction false} RowsAgree(rows: seq<Row>, cols: seq<Recv>, done: seq<RRow>, rest: seq<Byte>,
                                     big: bool, big2: bool)
    requires FitsRows(rows, cols) && ReusableAll(cols)
    requires var r := DecodeRows(cols, done, |rows|, EmitRows(rows, true, big) + rest, big2, big != big2);
      r.Some? && ValueRows(r.value.0.1) == ValueRows(done) + ArrivesRows(rows, big != big2)
    ensures CountsAgreeRows(rows, big, big2)
    decreases rows, 2
  {
    if rows != [] {
      assert FitsAll(rows[0].cells, cols) && FitsRows(rows[1..], cols);
      assert CountsAgreeRows(rows, big, big2)
        <==> CountsAgreeAll(rows[0].cells, big, big2) && CountsAgreeRows(rows[1..], big, big2);
      hide *;
      FirstRow(rows, cols, done, rest, big, big2);
      RowsAgreeRest(rows, cols, done, rest, big, big2);
    }
  }

  lemma {:induction false} RowsAgreeRest(rows: seq<Row>, cols: seq<Recv>, done: seq<RRow>, rest: seq<Byte>,
                                         big: bool, big2: bool)
    requires rows != [] && FitsAll(rows[0].cells, cols) && FitsRows(rows[1..], cols) && ReusableAll(cols)
    requires var r := DecodeAll(cols, EmitAll(rows[0].cells, true, big) + (EmitRows(rows[1..], true, big) + rest),
                                big2, big != big2);
      && r.Some? && ValueAll(r.value.0) == ArrivesAll(rows[0].cells, big != big2)
      && var r1 := DecodeRows(r.value.0, done + [RRow(r.value.0)], |rows| - 1, r.value.1, big2, big != big2);
      && r1.Some?
      && ValueRows(r1.value.0.1) == ValueRows(done + [RRow(r.value.0)]) + ArrivesRows(rows[1..], big != big2)
    ensures CountsAgreeAll(rows[0].cells, big, big2) && CountsAgreeRows(rows[1..], big, big2)
    decreases rows, 1
  {
    hide Decode, DecodeAll, DecodeRows, EmitAll, EmitRows, FitsAll, FitsRows, ReusableAll, BlankAll, ArrivesAll;
    hide ArrivesRows, CountsAgreeAll, CountsAgreeRows, ValueAll, ValueRows, FreshAll;
    var tail := EmitRows(rows[1..], true, big) + rest;
    ReusableAllFresh(cols);
    AllAgree(rows[0].cells, cols, tail, big, big2);
    ReadsAll(rows[0].cells, cols, tail, big, big2);
    var cols1 := DecodeAll(cols, EmitAll(rows[0].cells, true, big) + tail, big2, big != big2).value.0;
    FitsRowsSame(rows[1..], cols, cols1);
    RowsAgree(rows[1..], cols1, done + [RRow(cols1)], rest, big, big2);
  }

  /** A value that fits a fresh variable arrives in it if and only if every length and every
      count that is sent reads the same in both byte orders; and then nothing after it is
      touched. */
  lemma ArrivesExact(d: Data, v: Recv, rest: seq<Byte>, big: bool, big2: bool)
    requires Fits(d, v) && Fresh(v)
    ensures var r := Decode(v, Emit(d, true, big) + rest, big2, big != big2);
      && (Came(r, Arrives(d, big != big2)) <==> CountsAgree(d, big, big2))
      && (Came(r, Arrives(d, big != big2)) ==> r.value.1 == rest)
  {
    var r := Decode(v, Emit(d, true, big) + rest, big2, big != big2);
    if Came(r, Arrives(d, big != big2)) { CameAgrees(d, v, rest, big, big2); }
    if CountsAgree(d, big, big2) { Reads(d, v, rest, big, big2); }
  }

  // ---------------------------------------------------------------- data sets

  lemma {:induction false} VarsAgree(vs: seq<Member>, rs: seq<Recv>, rest: seq<Byte>, big: bool, big2: bool)
    requires FitsSent(vs, rs) && FreshAll(rs)
    requires var r := DecodeVars(rs, EmitVars(vs, true, big) + rest, big2, big != big2);
      r.Some? && VarValues(r.value.0) == ExpectedVars(vs, big, big2)
    ensures forall d :: d in SentOnly(vs) ==> CountsAgree(d, big, big2)
    decreases |vs|
  {
    if vs != [] {
      var more := EmitVars(vs[1..], true, big);
      if vs[0].send {
        VarAgrees(vs, rs, rest, big, big2);
        VarRead(vs[0].data, rs[0], more + rest, big, big2);
        Assoc(EmitVar(vs[0].data, true, big), more, rest);
        VarsAgree(vs[1..], rs[1..], rest, big, big2);
        assert SentOnly(vs) == [vs[0].data] + SentOnly(vs[1..]);
      } else {
        assert EmitVars(vs, true, big) == more;
        assert SentOnly(vs) == SentOnly(vs[1..]);
        assert ExpectedVars(vs, big, big2) == ExpectedVars(vs[1..], big, big2);
        VarsAgree(vs[1..], rs, rest, big, big2);
      }
    }
  }

  /** The stream of a list of variables begins with the first one and its checksum. */
  lemma FirstVar(vs: seq<Member>, rest: seq<Byte>, big: bool)
    requires vs != [] && vs[0].send
    ensures EmitVars(vs, true, big) + rest
      == Emit(vs[0].data, true, big)
         + (ChecksumBytes(Checksum(Payload(vs[0].data)), big) + (EmitVars(vs[1..], true, big) + rest))
  {
    hide Emit, ChecksumBytes;
    var sum := ChecksumBytes(Checksum(Payload(vs[0].data)), big);
    var a, more := Emit(vs[0].data, true, big), EmitVars(vs[1..], true, big);
    assert EmitVars(vs, true, big) == (a + sum) + more;
    Assoc(a + sum, more, rest);
    Assoc(a, sum, more + rest);
  }

  /** What reading the first variable and then the others comes to. */
  lemma DecodeFirst(rs: seq<Recv>, input: seq<Byte>, big: bool, twiddle: bool)
    requires rs != []
    ensures var all := DecodeVars(rs, input, big, twiddle); var first := Decode(rs[0], input, big, twiddle);
      all.Some? ==>
        && first.Some? && |first.value.1| >= 4
        && var more := DecodeVars(rs[1..], first.value.1[4..], big, twiddle);
        && more.Some?
        && VarValues(all.value.0)
           == [(Value(first.value.0), WordValue(first.value.1[..4], big))] + VarValues(more.value.0)
  {
    hide Decode, Value, WordValue;
    var all, first := DecodeVars(rs, input, big, twiddle), Decode(rs[0], input, big, twiddle);
    if all.Some? {
      var more := DecodeVars(rs[1..], first.value.1[4..], big, twiddle).value.0;
      var c := Checked(first.value.0, WordValue(first.value.1[..4], big));
      assert all.value.0 == [c] + more && ([c] + more)[1..] == more;
    }
  }

  /** The first variable, and what is left for the others. */
  lemma {:induction false} VarAgrees(vs: seq<Member>, rs: seq<Recv>, rest: seq<Byte>, big: bool, big2: bool)
    requires FitsSent(vs, rs) && FreshAll(rs) && vs != [] && vs[0].send
    requires var r := DecodeVars(rs, EmitVars(vs, true, big) + rest, big2, big != big2);
      r.Some? && VarValues(r.value.0) == ExpectedVars(vs, big, big2)
    ensures CountsAgree(vs[0].data, big, big2)
    ensures var r := DecodeVars(rs[1..], EmitVars(vs[1..], true, big) + rest, big2, big != big2);
      r.Some? && VarValues(r.value.0) == ExpectedVars(vs[1..], big, big2)
  {
    var d := vs[0].data;
    var sum := ChecksumBytes(Checksum(Payload(d)), big);
    var tail := EmitVars(vs[1..], true, big) + rest;
    var input := EmitVars(vs, true, big) + rest;
    var first := (Arrives(d, big != big2), WordValue(sum, big2));
    assert Fits(d, rs[0]) && Fresh(rs[0]);
    assert ExpectedVars(vs, big, big2) == [first] + ExpectedVars(vs[1..], big, big2);
    hide *;
    FirstVar(vs, rest, big);
    DecodeFirst(rs, input, big2, big != big2);
    var got := Decode(rs[0], input, big2, big != big2);
    var more := DecodeVars(rs[1..], got.value.1[4..], big2, big != big2);
    ConsEqual((Value(got.value.0), WordValue(got.value.1[..4], big2)), first, VarValues(more.value.0),
              ExpectedVars(vs[1..], big, big2));
    CameIs(got, Arrives(d, big != big2));
    ArrivesExact(d, rs[0], sum + tail, big, big2);
    assert (sum + tail)[4..] == tail;
  }

  lemma CameIs(r: Reading<Recv>, value: Data)
    ensures Came(r, value) <==> r.Some? && Value(r.value.0) == value
  {
  }

  lemma {:induction false} GroupAgrees(g: Group, r: RGroup, rest: seq<Byte>, big: bool, big2: bool)
    requires FitsGroup(g, r) && FreshGroup(r) && Closed(g)
    requires var q := DecodeGroup(r, EmitGroup(g, true, big) + rest, big2, big != big2);
      q.Some? && Values(q.value.0) == Expected(g, big, big2)
    ensures CountsAgreeGroup(g, big, big2)
    decreases g, 0
  {
    Assoc(EmitGroups(g.groups, true, big), EmitVars(g.vars, true, big), rest);
    GroupsAgree(g.groups, r.groups, EmitVars(g.vars, true, big) + rest, big, big2);
    GroupsRoundTrip(g.groups, r.groups, EmitVars(g.vars, true, big) + rest, big, big2);
    VarsAgree(g.vars, r.vars, rest, big, big2);
  }

  lemma {:induction false} GroupsAgree(gs: seq<Group>, rs: seq<RGroup>, rest: seq<Byte>, big: bool, big2: bool)
    requires FitsGroups(gs, rs) && FreshGroups(rs) && ClosedAll(gs)
    requires var q := DecodeGroups(rs, EmitGroups(gs, true, big) + rest, big2, big != big2);
      q.Some? && ValuesOf(q.value.0) == ExpectedOf(gs, big, big2)
    ensures forall d :: d in SentVarsOf(gs) ==> CountsAgree(d, big, big2)
    decreases gs, 1
  {
    hide CountsAgree;
    if gs != [] {
      var more := EmitGroups(gs[1..], true, big);
      Assoc(EmitGroup(gs[0], true, big), more, rest);
      if gs[0].send {
        var q := DecodeGroups(rs, EmitGroups(gs, true, big) + rest, big2, big != big2).value.0;
        assert ValuesOf(q) == [Values(q[0])] + ValuesOf(q[1..]);
        assert ExpectedOf(gs, big, big2) == [Expected(gs[0], big, big2)] + ExpectedOf(gs[1..], big, big2);
        ConsEqual(Values(q[0]), Expected(gs[0], big, big2), ValuesOf(q[1..]), ExpectedOf(gs[1..], big, big2));
        GroupAgrees(gs[0], rs[0], more + rest, big, big2);
        GroupRoundTrip(gs[0], rs[0], more + rest, big, big2);
        GroupsAgree(gs[1..], rs[1..], rest, big, big2);
      } else {
        GroupStream(gs[0], true, big);
        assert EmitGroups(gs, true, big) == more;
        assert ExpectedOf(gs, big, big2) == ExpectedOf(gs[1..], big, big2);
        GroupsAgree(gs[1..], rs, rest, big, big2);
      }
    }
  }

  /** The same for a whole data set, with a checksum for each variable: it arrives if and only
      if the lengths and counts of all its sent variables read the same in both byte orders. */
  lemma GroupArrivesExact(g: Group, r: RGroup, rest: seq<Byte>, big: bool, big2: bool)
    requires FitsGroup(g, r) && FreshGroup(r) && Closed(g)
    ensures var q := DecodeGroup(r, EmitGroup(g, true, big) + rest, big2, big != big2);
      && (q.Some? && Values(q.value.0) == Expected(g, big, big2) <==> CountsAgreeGroup(g, big, big2))
      && (q.Some? && Values(q.value.0) == Expected(g, big, big2) ==> q.value.1 == rest)
    ensures big == big2 ==> CountsAgreeGroup(g, big, big2)
  {
    if big == big2 {
      forall d | d in SentVars(g) ensures CountsAgree(d, big, big2) { SameOrder(d, big); }
    }
    var q := DecodeGroup(r, EmitGroup(g, true, big) + rest, big2, big != big2);
    if q.Some? && Values(q.value.0) == Expected(g, big, big2) { GroupAgrees(g, r, rest, big, big2); }
    if CountsAgreeGroup(g, big, big2) { GroupRoundTrip(g, r, rest, big, big2); }
  }
}
