/** How far the codec goes: lengths across byte orders, what is on the stream besides values,
    and what arrives for sequences inside sequences. */
module CodecLimits {
  import opened Wrappers
  import opened Bytes
  import opened D4Data
  import opened CodecRoundTrip

  // ---------------------------------------------------------------- byte order

  /** A number arrives with the same value, whichever byte orders the hosts have. */
  lemma NumbersArrive(b: seq<Byte>, big: bool, big2: bool)
    ensures var d := Arrives(Fixed(b), big != big2);
      d.Fixed? && WordValue(d.bytes, big2) == WordValue(b, big)
  {
    if big != big2 { SwapChangesOrder(b, big); }
  }

  /** The length in front of a string is never swapped: between hosts of different byte order
      a string arrives exactly when the eight bytes of its length read the same both ways. */
  lemma TextAcrossByteOrders(o: bool, old': seq<Byte>, b: seq<Byte>, rest: seq<Byte>, big: bool)
    requires |b| < TWO_TO_63
    ensures Decode(RText(o, old'), Emit(Text(o, b), true, big) + rest, !big, true) == Some((RText(o, b), rest))
            <==> Little(|b|, 8) == Reversed(Little(|b|, 8))
  {
    var input := Emit(Text(o, b), true, big) + rest;
    Assoc(Count(|b|, big), b, rest);
    CountReads(|b|, big, !big, b + rest);
    SwappedCount(|b|, big);
    hide Little, WordValue, Word, Count, ReadCount;
    TextLength(o, old', b, rest, input, !big, ReadCount(input, !big).value.0);
  }

  lemma SwappedCount(n: nat, big: bool)
    ensures SameCount(n, big, !big) <==> Little(n, 8) == Reversed(Little(n, 8))
  {
    ReversedTwice(Little(n, 8));
  }

  lemma TextLength(o: bool, old': seq<Byte>, b: seq<Byte>, rest: seq<Byte>, input: seq<Byte>, big: bool, n: int)
    requires ReadCount(input, big) == Some((n, b + rest))
    ensures Decode(RText(o, old'), input, big, true) == Some((RText(o, b), rest)) <==> n == |b|
  {
    hide ReadCount;
    var tail := b + rest;
    assert tail[..|b|] == b && tail[|b|..] == rest;
    if 0 <= n <= |tail| { assert |tail[..n]| == n; }
  }

  // ---------------------------------------------------------------- counts and values

  /** How many lengths and counts a value brings with it. */
  function Prefixes(d: Data): nat
    decreases d, 0
  {
    match d
    case Fixed(_) => 0
    case Text(_, _) => 1
    case Vector(es) => PrefixesAll(es)
    case Structure(ms) => PrefixesSent(ms)
    case Sequence(rows) => 1 + PrefixesRows(rows)
  }

  function PrefixesAll(ds: seq<Data>): nat
    decreases ds, 1
  {
    if ds == [] then 0 else Prefixes(ds[0]) + PrefixesAll(ds[1..])
  }

  function PrefixesRows(rows: seq<Row>): nat
    decreases rows, 2
  {
    if rows == [] then 0 else PrefixesAll(rows[0].cells) + PrefixesRows(rows[1..])
  }

  function PrefixesSent(ms: seq<Member>): nat
    decreases ms, 1
  {
    if ms == [] then 0 else PrefixesMember(ms[0]) + PrefixesSent(ms[1..])
  }

  function PrefixesMember(m: Member): nat
    decreases m, 0
  {
    if m.send then Prefixes(m.data) else 0
  }

  /** A variable takes up its checksummed bytes and eight more for every length and count. */
  lemma {:induction false} EmittedSize(d: Data, big: bool)
    ensures |Emit(d, true, big)| == |Payload(d)| + 8 * Prefixes(d)
    decreases d, 0
  {
    match d
    case Fixed(_) =>
    case Text(_, _) =>
    case Vector(es) => EmittedSizeAll(es, big);
    case Structure(ms) => EmittedSizeSent(ms, big);
    case Sequence(rows) => EmittedSizeRows(rows, big);
  }

  lemma {:induction false} EmittedSizeAll(ds: seq<Data>, big: bool)
    ensures |EmitAll(ds, true, big)| == |PayloadAll(ds)| + 8 * PrefixesAll(ds)
    decreases ds, 1
  {
    if ds != [] {
      EmittedSize(ds[0], big);
      EmittedSizeAll(ds[1..], big);
    }
  }

  lemma {:induction false} EmittedSizeRows(rows: seq<Row>, big: bool)
    ensures |EmitRows(rows, true, big)| == |PayloadRows(rows)| + 8 * PrefixesRows(rows)
    decreases rows, 2
  {
    if rows != [] {
      EmittedSizeAll(rows[0].cells, big);
      EmittedSizeRows(rows[1..], big);
    }
  }

  lemma {:induction false} EmittedSizeSent(ms: seq<Member>, big: bool)
    ensures |EmitSent(ms, true, big)| == |PayloadSent(ms)| + 8 * PrefixesSent(ms)
    decreases ms, 1
  {
    if ms != [] {
      EmittedSizeMember(ms[0], big);
      EmittedSizeSent(ms[1..], big);
    }
  }

  lemma {:induction false} EmittedSizeMember(m: Member, big: bool)
    ensures |EmitMember(m, true, big)| == |PayloadMember(m)| + 8 * PrefixesMember(m)
    decreases m, 0
  {
    EmittedSize(m.data, big);
  }

  /** A sequence that is sent, at any depth. */
  predicate SendsSequence(d: Data)
    decreases d, 0
  {
    match d
    case Fixed(_) => false
    case Text(_, _) => false
    case Vector(es) => exists i :: 0 <= i < |es| && SendsSequence(es[i])
    case Structure(ms) => exists i :: 0 <= i < |ms| && MemberSendsSequence(ms[i])
    case Sequence(_) => true
  }

  predicate MemberSendsSequence(m: Member)
    decreases m, 0
  {
    m.send && SendsSequence(m.data)
  }

  /** With writing turned off a variable leaves nothing on the stream exactly when it sends no
      sequence: the row counts are written all the same. */
  lemma {:induction false} SilentWithoutSequences(d: Data, big: bool)
    ensures Emit(d, false, big) == [] <==> !SendsSequence(d)
    decreases d, 0
  {
    match d
    case Fixed(_) =>
    case Text(_, _) =>
    case Vector(es) =>
      SilentAll(es, big);
      assert SendsSequence(d) <==> exists i :: 0 <= i < |es| && SendsSequence(es[i]);
    case Structure(ms) =>
      SilentSent(ms, big);
      assert SendsSequence(d) <==> exists i :: 0 <= i < |ms| && MemberSendsSequence(ms[i]);
    case Sequence(_) =>
  }

  lemma {:induction false} SilentAll(ds: seq<Data>, big: bool)
    ensures EmitAll(ds, false, big) == [] <==> forall i :: 0 <= i < |ds| ==> !SendsSequence(ds[i])
    decreases ds, 1
  {
    if ds != [] {
      SilentWithoutSequences(ds[0], big);
      SilentAll(ds[1..], big);
      assert (forall i :: 0 <= i < |ds[1..]| ==> !SendsSequence(ds[1..][i]))
        <==> forall i :: 1 <= i < |ds| ==> !SendsSequence(ds[i]) by {
        forall i | 1 <= i < |ds| ensures ds[1..][i - 1] == ds[i] {}
      }
    }
  }

  lemma {:induction false} SilentSent(ms: seq<Member>, big: bool)
    ensures EmitSent(ms, false, big) == [] <==> forall i :: 0 <= i < |ms| ==> !MemberSendsSequence(ms[i])
    decreases ms, 1
  {
    if ms != [] {
      SilentMember(ms[0], big);
      SilentSent(ms[1..], big);
      assert (forall i :: 0 <= i < |ms[1..]| ==> !MemberSendsSequence(ms[1..][i]))
        <==> forall i :: 1 <= i < |ms| ==> !MemberSendsSequence(ms[i]) by {
        forall i | 1 <= i < |ms| ensures ms[1..][i - 1] == ms[i] {}
      }
    }
  }

  lemma {:induction false} SilentMember(m: Member, big: bool)
    ensures EmitMember(m, false, big) == [] <==> !MemberSendsSequence(m)
    decreases m, 0
  {
    SilentWithoutSequences(m.data, big);
  }

  // ---------------------------------------------------------------- sequences in sequences

  /** A sequence whose rows hold one sequence each. */
  function Outer(inners: seq<seq<Row>>): seq<Row> {
    if inners == [] then [] else [Row([Sequence(inners[0])])] + Outer(inners[1..])
  }

  /** The rows received for the inner sequences: each holds those of all before it as well. */
  function Accumulated(done: seq<Row>, inners: seq<seq<Row>>): seq<seq<Row>>
    decreases |inners|
  {
    if inners == [] then [] else [done + inners[0]] + Accumulated(done + inners[0], inners[1..])
  }

  predicate FitInners(inners: seq<seq<Row>>, cols: seq<Recv>) {
    forall k :: 0 <= k < |inners| ==> |inners[k]| < TWO_TO_63 && FitsRows(inners[k], cols)
  }

  function ProjectInners(inners: seq<seq<Row>>): seq<seq<Row>> {
    if inners == [] then [] else [ProjectRows(inners[0])] + ProjectInners(inners[1..])
  }

  lemma InnerReads(inner: seq<Row>, cols: seq<Recv>, n: int, done: seq<RRow>, rest: seq<Byte>, big: bool)
    requires FitsRows(inner, cols) && ReusableAll(cols) && |inner| < TWO_TO_63
    ensures var r := Decode(RSequence(cols, n, done), Emit(Sequence(inner), true, big) + rest, big, false);
      && r.Some? && r.value.1 == rest && r.value.0.RSequence?
      && ReusableAll(r.value.0.columns) && BlankAll(r.value.0.columns) == BlankAll(cols)
      && ValueRows(r.value.0.rows) == ValueRows(done) + ProjectRows(inner)
  {
    hide DecodeRows, EmitRows, ValueRows, ProjectRows, FitsRows;
    var body := EmitRows(inner, true, big);
    Assoc(Count(|inner|, big), body, rest);
    CountReads(|inner|, big, big, body + rest);
    ReadsRows(inner, cols, done, rest, big, big);
    ArrivesRowsUnchanged(inner);
  }

  lemma OneCell(v: Recv, input: seq<Byte>, big: bool)
    ensures var r := Decode(v, input, big, false);
      DecodeAll([v], input, big, false) == match r case None => None case Some((w, rest)) => Some(([w], rest))
  {
    assert [v][1..] == [];
    match Decode(v, input, big, false) {
      case None =>
      case Some((w, rest)) =>
        assert DecodeAll([], rest, big, false) == Some(([], rest));
        assert [w] + [] == [w];
    }
  }

  /** The rows of a sequence in a sequence pile up from one outer row to the next. */
  lemma {:induction false} NestedRowsPileUp(inners: seq<seq<Row>>, cols: seq<Recv>, n: int, done: seq<RRow>,
                                            outer: seq<RRow>, rest: seq<Byte>, big: bool)
    requires ReusableAll(cols) && FitInners(inners, cols)
    ensures var r := DecodeRows([RSequence(cols, n, done)], outer, |inners|,
                                EmitRows(Outer(inners), true, big) + rest, big, false);
      && r.Some? && r.value.1 == rest
      && ValueRows(r.value.0.1) == ValueRows(outer) + Outer(Accumulated(ValueRows(done), ProjectInners(inners)))
    decreases |inners|
  {
    hide Decode, EmitRows, Emit;
    if inners == [] {
      assert EmitRows(Outer(inners), true, big) + rest == rest by { NothingEmitted(big, rest); }
      assert ValueRows(outer) + [] == ValueRows(outer);
    } else {
      NestedStep(inners, cols, n, done, outer, rest, big);
      var more := EmitRows(Outer(inners[1..]), true, big);
      var input := Emit(Sequence(inners[0]), true, big) + (more + rest);
      var v := Decode(RSequence(cols, n, done), input, big, false).value.0;
      forall k | 0 <= k < |inners[1..]| ensures FitsRows(inners[1..][k], v.columns) {
        assert FitsRows(inners[k + 1], cols);
        FitsRowsSame(inners[k + 1], cols, v.columns);
      }
      NestedRowsPileUp(inners[1..], v.columns, v.length, v.rows, outer + [RRow([v])], rest, big);
      ValueSnoc(outer, RRow([v]));
      assert ValueAll([v]) == [Value(v)] by { assert [v][1..] == []; }
      PileUpCons(ValueRows(outer), ValueRows(done), inners);
    }
  }

  lemma NothingEmitted(big: bool, rest: seq<Byte>)
    ensures EmitRows(Outer([]), true, big) + rest == rest
  {
  }

  lemma AccumulatedCons(done: seq<Row>, inners: seq<seq<Row>>)
    requires inners != []
    ensures var acc := done + ProjectRows(inners[0]);
      Accumulated(done, ProjectInners(inners)) == [acc] + Accumulated(acc, ProjectInners(inners[1..]))
  {
    hide ProjectRows;
    assert ProjectInners(inners)[0] == ProjectRows(inners[0]);
    assert ProjectInners(inners)[1..] == ProjectInners(inners[1..]);
  }

  lemma OuterCons(rows: seq<Row>, inners: seq<seq<Row>>)
    ensures Outer([rows] + inners) == [Row([Sequence(rows)])] + Outer(inners)
  {
    assert ([rows] + inners)[1..] == inners;
  }

  lemma PileUpCons(outer: seq<Row>, done: seq<Row>, inners: seq<seq<Row>>)
    requires inners != []
    ensures var acc := done + ProjectRows(inners[0]);
      outer + [Row([Sequence(acc)])] + Outer(Accumulated(acc, ProjectInners(inners[1..])))
      == outer + Outer(Accumulated(done, ProjectInners(inners)))
  {
    hide *;
    var acc := done + ProjectRows(inners[0]);
    var row, tail := Row([Sequence(acc)]), Accumulated(acc, ProjectInners(inners[1..]));
    AccumulatedCons(done, inners);
    OuterCons(acc, tail);
    assert outer + [row] + Outer(tail) == outer + ([row] + Outer(tail));
  }

  lemma NestedStep(inners: seq<seq<Row>>, cols: seq<Recv>, n: int, done: seq<RRow>,
                   outer: seq<RRow>, rest: seq<Byte>, big: bool)
    requires ReusableAll(cols) && FitInners(inners, cols) && inners != []
    ensures var more := EmitRows(Outer(inners[1..]), true, big);
      var r := Decode(RSequence(cols, n, done), Emit(Sequence(inners[0]), true, big) + (more + rest), big, false);
      && r.Some? && r.value.0.RSequence? && ReusableAll(r.value.0.columns)
      && BlankAll(r.value.0.columns) == BlankAll(cols)
      && ValueRows(r.value.0.rows) == ValueRows(done) + ProjectRows(inners[0])
      && DecodeRows([RSequence(cols, n, done)], outer, |inners|, EmitRows(Outer(inners), true, big) + rest, big, false)
         == DecodeRows([r.value.0], outer + [RRow([r.value.0])], |inners| - 1, more + rest, big, false)
  {
    var more := EmitRows(Outer(inners[1..]), true, big);
    var first := Emit(Sequence(inners[0]), true, big);
    var v := RSequence(cols, n, done);
    InnerReads(inners[0], cols, n, done, more + rest, big);
    OneCell(v, first + (more + rest), big);
    var cell := Sequence(inners[0]);
    assert Outer(inners)[0] == Row([cell]) && Outer(inners)[1..] == Outer(inners[1..]);
    assert EmitAll([cell], true, big) == first by { assert [cell][1..] == [] && first + [] == first; }
    assert EmitRows(Outer(inners), true, big) == first + more;
    Assoc(first, more, rest);
  }
}
