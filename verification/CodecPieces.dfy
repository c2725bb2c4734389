/** The calls that serialize() of a value makes to the marshaller, and which of them fail. */
module CodecPieces {
  import opened Bytes
  import opened D4Data
  import opened D4StreamMarshaller

  /** The numbers, texts and blocks of numbers of a value that are handed to the marshaller one
      by one: all that is sent, whatever it is inside of. */
  function Pieces(d: Data): seq<Data>
    decreases d, 0
  {
    match d
    case Fixed(_) => [d]
    case Text(_, _) => [d]
    case Vector(es) => if es != [] && es[0].Fixed? then [d] else PiecesAll(es)
    case Structure(ms) => PiecesSent(ms)
    case Sequence(rows) => PiecesRows(rows)
  }

  function PiecesAll(ds: seq<Data>): seq<Data>
    decreases ds, 1
  {
    if ds == [] then [] else Pieces(ds[0]) + PiecesAll(ds[1..])
  }

  function PiecesRows(rows: seq<Row>): seq<Data>
    decreases rows, 2
  {
    if rows == [] then [] else PiecesAll(rows[0].cells) + PiecesRows(rows[1..])
  }

  function PiecesSent(ms: seq<Member>): seq<Data>
    decreases ms, 1
  {
    if ms == [] then [] else PiecesMember(ms[0]) + PiecesSent(ms[1..])
  }

  function PiecesMember(m: Member): seq<Data>
    decreases m, 0
  {
    if m.send then Pieces(m.data) else []
  }

  /** The marshaller stops on an opaque without bytes and on a block of 2^63 bytes or more. */
  predicate Fits(d: Data) {
    match d
    case Text(o, b) => o ==> b != []
    case Vector(es) => es != [] && es[0].Fixed? && |es[0].bytes| != 1 ==> |es| * |es[0].bytes| < TWO_TO_63
    case _ => true
  }

  predicate AllFit(ds: seq<Data>) { forall d :: d in ds ==> Fits(d) }

  lemma {:induction false} PayloadConcat(a: seq<Data>, b: seq<Data>)
    ensures PayloadAll(a + b) == PayloadAll(a) + PayloadAll(b)
    ensures AllFit(a + b) <==> AllFit(a) && AllFit(b)
    decreases |a|
  {
    hide Payload, Fits;
    if a == [] {
      assert a + b == b;
    } else {
      assert (a + b)[0] == a[0] && (a + b)[1..] == a[1..] + b;
      PayloadConcat(a[1..], b);
    }
  }

  lemma OnePiece(d: Data)
    ensures PayloadAll([d]) == Payload(d) && (AllFit([d]) <==> Fits(d))
  {
    hide Payload, Fits;
    assert [d][1..] == [];
  }

  /** serialize() of a value gets through exactly when the marshaller takes each of its pieces,
      and the bytes that count for the checksum are those of its pieces in order. */
  lemma {:induction false} PiecesExact(d: Data)
    ensures Sendable(d) <==> AllFit(Pieces(d))
    ensures Payload(d) == PayloadAll(Pieces(d))
    decreases d, 0
  {
    hide AllFit;
    match d
    case Fixed(_) => OnePiece(d);
    case Text(_, _) => OnePiece(d);
    case Vector(es) => if es != [] && es[0].Fixed? { OnePiece(d); } else { PiecesAllExact(es); }
    case Structure(ms) => PiecesSentExact(ms);
    case Sequence(rows) => PiecesRowsExact(rows);
  }

  lemma {:induction false} PiecesAllExact(ds: seq<Data>)
    ensures SendableAll(ds) <==> AllFit(PiecesAll(ds))
    ensures PayloadAll(ds) == PayloadAll(PiecesAll(ds))
    decreases ds, 1
  {
    hide Sendable, Payload, Pieces;
    if ds != [] {
      PiecesExact(ds[0]);
      PiecesAllExact(ds[1..]);
      PayloadConcat(Pieces(ds[0]), PiecesAll(ds[1..]));
    }
  }

  lemma {:induction false} PiecesRowsExact(rows: seq<Row>)
    ensures SendableRows(rows) <==> AllFit(PiecesRows(rows))
    ensures PayloadRows(rows) == PayloadAll(PiecesRows(rows))
    decreases rows, 2
  {
    hide SendableAll, PayloadAll, PiecesAll;
    if rows != [] {
      PiecesAllExact(rows[0].cells);
      PiecesRowsExact(rows[1..]);
      PayloadConcat(PiecesAll(rows[0].cells), PiecesRows(rows[1..]));
    } else {
      PayloadNothing();
    }
  }

  lemma PayloadNothing()
    ensures PayloadAll([]) == []
  {
  }

  lemma {:induction false} PiecesSentExact(ms: seq<Member>)
    ensures SendableSent(ms) <==> AllFit(PiecesSent(ms))
    ensures PayloadSent(ms) == PayloadAll(PiecesSent(ms))
    decreases ms, 1
  {
    hide SendableMember, PayloadMember, PiecesMember, PayloadAll;
    PayloadNothing();
    if ms != [] {
      PiecesMemberExact(ms[0]);
      PiecesSentExact(ms[1..]);
      PayloadConcat(PiecesMember(ms[0]), PiecesSent(ms[1..]));
    }
  }

  lemma {:induction false} PiecesMemberExact(m: Member)
    ensures SendableMember(m) <==> AllFit(PiecesMember(m))
    ensures PayloadMember(m) == PayloadAll(PiecesMember(m))
    decreases m, 0
  {
    hide Sendable, Payload, Pieces, PayloadAll;
    PayloadNothing();
    if m.send { PiecesExact(m.data); }
  }
}
