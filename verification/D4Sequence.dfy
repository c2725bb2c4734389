/** Reading a sequence row by row, with the filter clauses of a constraint, and sending it. */
module D4Sequence {
  import opened Wrappers
  import opened Bytes
  import opened D4Data
  import opened D4StreamMarshaller

  // ---------------------------------------------------------------- filter clauses

  datatype Op = NullOp | Less | Greater | LessEqual | GreaterEqual | Equal | NotEqual | Match | ND | MapOp

  /** An operand: a column of the sequence, or a constant. */
  datatype RValue = Column(index: nat) | Constant(value: Data)

  datatype Clause = Clause(op: Op, arg1: RValue, arg2: RValue)

  function ValueOf(v: RValue, row: seq<Data>): Data {
    match v
    case Constant(d) => d
    case Column(i) => if i < |row| then row[i] else Fixed([])
  }

  /** How the data types compare is up to the classes of the operands. */
  type Comparison = (Op, Data, Data) -> bool

  /** D4FilterClause::value; None is the exception for operators that cannot be evaluated. */
  function ClauseValue(c: Clause, row: seq<Data>, cmp: Comparison): Option<bool> {
    if c.op in {NullOp, ND, MapOp} then None else Some(cmp(c.op, ValueOf(c.arg1, row), ValueOf(c.arg2, row)))
  }

  /** What an operand stands for when this row is current. */
  predicate Denotes(v: RValue, row: seq<Data>, d: Data) {
    match v
    case Constant(c) => d == c
    case Column(i) => i < |row| && d == row[i]
  }

  /** The comparison of the first operand with the second is true. */
  ghost predicate Holds(c: Clause, row: seq<Data>, cmp: Comparison) {
    && c.op in {Less, Greater, LessEqual, GreaterEqual, Equal, NotEqual, Match}
    && exists a, b :: Denotes(c.arg1, row, a) && Denotes(c.arg2, row, b) && cmp(c.op, a, b)
  }

  /** The columns that a clause names are there. */
  predicate Resolved(c: Clause, row: seq<Data>) {
    (c.arg1.Column? ==> c.arg1.index < |row|) && (c.arg2.Column? ==> c.arg2.index < |row|)
  }

  lemma ClauseExact(c: Clause, row: seq<Data>, cmp: Comparison)
    requires Resolved(c, row)
    ensures ClauseValue(c, row, cmp) == Some(true) <==> Holds(c, row, cmp)
    ensures ClauseValue(c, row, cmp) == None <==> c.op in {NullOp, ND, MapOp}
  {
    var a, b := ValueOf(c.arg1, row), ValueOf(c.arg2, row);
    assert Denotes(c.arg1, row, a) && Denotes(c.arg2, row, b);
    match c.op
    case NullOp => case ND => case MapOp =>
    case _ => assert cmp(c.op, a, b) ==> Holds(c, row, cmp);
  }

  /** The clauses are evaluated in order, up to the first that is false. */
  function ListValue(cs: seq<Clause>, row: seq<Data>, cmp: Comparison): Option<bool> {
    if cs == [] then Some(true)
    else match ClauseValue(cs[0], row, cmp)
      case None => None
      case Some(b) => if b then ListValue(cs[1..], row, cmp) else Some(false)
  }

  /** The list is true exactly when every clause is, and then all could be evaluated. */
  lemma {:induction false} ListTrue(cs: seq<Clause>, row: seq<Data>, cmp: Comparison)
    ensures ListValue(cs, row, cmp) == Some(true)
      <==> forall i :: 0 <= i < |cs| ==> ClauseValue(cs[i], row, cmp) == Some(true)
    decreases |cs|
  {
    if cs != [] {
      ListTrue(cs[1..], row, cmp);
      assert forall i :: 0 < i < |cs| ==> cs[i] == cs[1..][i - 1];
    }
  }

  /** A row passes a list of clauses exactly when each comparison is true of it. */
  lemma ListExact(cs: seq<Clause>, row: seq<Data>, cmp: Comparison)
    requires forall c :: c in cs ==> Resolved(c, row)
    ensures ListValue(cs, row, cmp) == Some(true) <==> forall c :: c in cs ==> Holds(c, row, cmp)
  {
    hide Holds, Resolved, ClauseValue;
    ListTrue(cs, row, cmp);
    forall c | c in cs ensures ClauseValue(c, row, cmp) == Some(true) <==> Holds(c, row, cmp) {
      ClauseExact(c, row, cmp);
    }
    forall i | 0 <= i < |cs| ensures cs[i] in cs {}
  }

  // ---------------------------------------------------------------- rows

  /** The sent columns of a row. */
  function Sent(row: seq<Data>, send: seq<bool>): seq<Data> {
    if row == [] || send == [] then []
    else (if send[0] then [row[0]] else []) + Sent(row[1..], send[1..])
  }

  /** The columns from c on that are sent. */
  function Columns(send: seq<bool>, n: nat, c: nat): seq<nat>
    decreases n - c
  {
    if c >= n || c >= |send| then []
    else (if send[c] then [c] else []) + Columns(send, n, c + 1)
  }

  /** An increasing list of exactly the columns of a row of n whose flag is set. */
  ghost predicate AreSent(cs: seq<nat>, send: seq<bool>, n: nat, c: nat) {
    && (forall i :: i in cs <==> c <= i < n && i < |send| && send[i])
    && (forall i, j :: 0 <= i < j < |cs| ==> cs[i] < cs[j])
  }

  lemma {:induction false} ColumnsExact(send: seq<bool>, n: nat, c: nat)
    ensures AreSent(Columns(send, n, c), send, n, c)
    decreases n - c
  {
    hide Columns;
    ColumnsSteps(send, n, c);
    if c < n && c < |send| {
      ColumnsExact(send, n, c + 1);
      FirstBefore(c, Columns(send, n, c + 1));
    }
  }

  lemma ColumnsSteps(send: seq<bool>, n: nat, c: nat)
    ensures Columns(send, n, c) ==
      if c >= n || c >= |send| then []
      else if send[c] then [c] + Columns(send, n, c + 1) else Columns(send, n, c + 1)
  {
    if c < n && c < |send| { assert [] + Columns(send, n, c + 1) == Columns(send, n, c + 1); }
  }

  /** What a row shows in some of its columns, in that order. */
  ghost predicate Shows(cells: seq<Data>, row: seq<Data>, cs: seq<nat>) {
    |cells| == |cs| && forall j :: 0 <= j < |cs| ==> cs[j] < |row| && cells[j] == row[cs[j]]
  }

  lemma {:induction false} SentFrom(row: seq<Data>, send: seq<bool>, c: nat)
    requires c <= |row| && c <= |send|
    ensures Shows(Sent(row[c..], send[c..]), row, Columns(send, |row|, c))
    decreases |row| - c
  {
    if c < |row| && c < |send| {
      assert row[c..][0] == row[c] && row[c..][1..] == row[c + 1..];
      assert send[c..][0] == send[c] && send[c..][1..] == send[c + 1..];
      SentFrom(row, send, c + 1);
      var rest, more := Sent(row[c + 1..], send[c + 1..]), Columns(send, |row|, c + 1);
      assert [] + rest == rest && [] + more == more;
    }
  }

  /** A row goes out as the values of exactly its sent columns, in column order. */
  lemma SentExact(row: seq<Data>, send: seq<bool>)
    ensures exists cs: seq<nat> :: AreSent(cs, send, |row|, 0) && Shows(Sent(row, send), row, cs)
  {
    assert row[0..] == row && send[0..] == send;
    SentFrom(row, send, 0);
    ColumnsExact(send, |row|, 0);
  }

  /** Everything is sent when every flag is set, and nothing when none is. */
  lemma {:induction false} SentAll(row: seq<Data>, send: seq<bool>)
    ensures |row| <= |send| && (forall c :: 0 <= c < |row| ==> send[c]) ==> Sent(row, send) == row
    ensures (forall c :: 0 <= c < |send| ==> !send[c]) ==> Sent(row, send) == []
    decreases |row|
  {
    if row != [] && send != [] {
      SentAll(row[1..], send[1..]);
      assert row == [row[0]] + row[1..];
    }
  }

  /** Whether a row counts; None when a clause cannot be evaluated. */
  function Counts(row: seq<Data>, clauses: Option<seq<Clause>>, filter: bool, cmp: Comparison): Option<bool> {
    if filter && clauses.Some? then ListValue(clauses.value, row, cmp) else Some(true)
  }

  /** The rows that count, in order, reduced to the sent columns. */
  function Kept(rows: seq<seq<Data>>, send: seq<bool>, clauses: Option<seq<Clause>>, filter: bool, cmp: Comparison)
    : Option<seq<Row>>
  {
    if rows == [] then Some([])
    else match Counts(rows[0], clauses, filter, cmp)
      case None => None
      case Some(b) =>
        match Kept(rows[1..], send, clauses, filter, cmp)
        case None => None
        case Some(rest) => Some((if b then [Row(Sent(rows[0], send))] else []) + rest)
  }

  /** The positions of the rows that count. */
  function Positions(rows: seq<seq<Data>>, k: nat, clauses: Option<seq<Clause>>, filter: bool,
                     cmp: Comparison): seq<nat>
    decreases |rows| - k
  {
    if k >= |rows| then []
    else (if Counts(rows[k], clauses, filter, cmp) == Some(true) then [k] else [])
         + Positions(rows, k + 1, clauses, filter, cmp)
  }

  lemma PositionsSteps(rows: seq<seq<Data>>, k: nat, clauses: Option<seq<Clause>>, filter: bool, cmp: Comparison)
    ensures Positions(rows, k, clauses, filter, cmp) ==
      if k >= |rows| then []
      else if Counts(rows[k], clauses, filter, cmp) == Some(true) then
        [k] + Positions(rows, k + 1, clauses, filter, cmp)
      else Positions(rows, k + 1, clauses, filter, cmp)
  {
    hide Counts;
    if k < |rows| {
      var rest := Positions(rows, k + 1, clauses, filter, cmp);
      assert [] + rest == rest;
    }
  }

  lemma {:induction false} PositionsExact(rows: seq<seq<Data>>, k: nat, clauses: Option<seq<Clause>>, filter: bool,
                                          cmp: Comparison)
    ensures var ps := Positions(rows, k, clauses, filter, cmp);
      && (forall i :: i in ps <==> k <= i < |rows| && Counts(rows[i], clauses, filter, cmp) == Some(true))
      && (forall i, j :: 0 <= i < j < |ps| ==> ps[i] < ps[j])
    decreases |rows| - k
  {
    hide *;
    PositionsSteps(rows, k, clauses, filter, cmp);
    if k < |rows| {
      PositionsExact(rows, k + 1, clauses, filter, cmp);
      FirstBefore(k, Positions(rows, k + 1, clauses, filter, cmp));
    }
  }

  lemma FirstBefore(k: nat, rest: seq<nat>)
    requires (forall i :: i in rest ==> k < i) && forall i, j :: 0 <= i < j < |rest| ==> rest[i] < rest[j]
    ensures var ps := [k] + rest; forall i, j :: 0 <= i < j < |ps| ==> ps[i] < ps[j]
  {
    var ps := [k] + rest;
    forall i, j | 0 <= i < j < |ps| ensures ps[i] < ps[j] {
      if i == 0 { assert ps[j] == rest[j - 1] && rest[j - 1] in rest; }
    }
  }

  lemma KeptSteps(rows: seq<seq<Data>>, k: nat, send: seq<bool>, clauses: Option<seq<Clause>>, filter: bool,
                  cmp: Comparison)
    requires k <= |rows|
    ensures Kept(rows[k..], send, clauses, filter, cmp) ==
      if k == |rows| then Some([])
      else match Counts(rows[k], clauses, filter, cmp)
        case None => None
        case Some(b) =>
          match Kept(rows[k + 1..], send, clauses, filter, cmp)
          case None => None
          case Some(rest) => Some(if b then [Row(Sent(rows[k], send))] + rest else rest)
  {
    hide Counts, Sent;
    if k < |rows| {
      assert rows[k..][0] == rows[k] && rows[k..][1..] == rows[k + 1..];
      var more := Kept(rows[k + 1..], send, clauses, filter, cmp);
      if more.Some? { assert [] + more.value == more.value; }
    }
  }

  /** Exactly the rows that count are kept, in source order, each once. */
  lemma {:induction false} KeptExact(rows: seq<seq<Data>>, k: nat, send: seq<bool>, clauses: Option<seq<Clause>>,
                                     filter: bool, cmp: Comparison)
    requires k <= |rows|
    ensures Kept(rows[k..], send, clauses, filter, cmp).None?
      <==> exists i :: k <= i < |rows| && Counts(rows[i], clauses, filter, cmp) == None
    ensures var r := Kept(rows[k..], send, clauses, filter, cmp); var ps := Positions(rows, k, clauses, filter, cmp);
      r.Some? ==>
        && |r.value| == |ps|
        && forall j :: 0 <= j < |ps| ==> ps[j] < |rows| && r.value[j] == Row(Sent(rows[ps[j]], send))
    decreases |rows| - k
  {
    hide *;
    KeptSteps(rows, k, send, clauses, filter, cmp);
    PositionsSteps(rows, k, clauses, filter, cmp);
    if k < |rows| {
      KeptExact(rows, k + 1, send, clauses, filter, cmp);
      if Counts(rows[k], clauses, filter, cmp) != None {
        assert (exists i :: k <= i < |rows| && Counts(rows[i], clauses, filter, cmp) == None)
          <==> exists i :: k + 1 <= i < |rows| && Counts(rows[i], clauses, filter, cmp) == None;
      }
    }
  }

  /** Every clause, if there is a filter, is true of the row. */
  ghost predicate Passes(row: seq<Data>, clauses: Option<seq<Clause>>, filter: bool, cmp: Comparison) {
    filter && clauses.Some? ==> forall c :: c in clauses.value ==> Holds(c, row, cmp)
  }

  predicate AllResolved(rows: seq<seq<Data>>, clauses: Option<seq<Clause>>) {
    clauses.Some? ==> forall i, c :: 0 <= i < |rows| && c in clauses.value ==> Resolved(c, rows[i])
  }

  /** A stored row has the values of exactly the sent columns of a source row, in column order. */
  ghost predicate Stores(stored: Row, row: seq<Data>, send: seq<bool>) {
    exists cs: seq<nat> :: AreSent(cs, send, |row|, 0) && Shows(stored.cells, row, cs)
  }

  /** An increasing list of exactly the positions of the rows that pass. */
  ghost predicate ArePassing(ps: seq<nat>, rows: seq<seq<Data>>, clauses: Option<seq<Clause>>, filter: bool,
                             cmp: Comparison) {
    && (forall i :: i in ps <==> 0 <= i < |rows| && Passes(rows[i], clauses, filter, cmp))
    && forall i, j :: 0 <= i < j < |ps| ==> ps[i] < ps[j]
  }

  ghost predicate StoresAll(stored: seq<Row>, rows: seq<seq<Data>>, ps: seq<nat>, send: seq<bool>) {
    |stored| == |ps| && forall j :: 0 <= j < |ps| ==> ps[j] < |rows| && Stores(stored[j], rows[ps[j]], send)
  }

  /** The stored rows are those of the source that pass, each once and in order. */
  ghost predicate Selected(stored: seq<Row>, rows: seq<seq<Data>>, send: seq<bool>, clauses: Option<seq<Clause>>,
                           filter: bool, cmp: Comparison) {
    exists ps: seq<nat> :: ArePassing(ps, rows, clauses, filter, cmp) && StoresAll(stored, rows, ps, send)
  }

  lemma PassesExact(row: seq<Data>, clauses: Option<seq<Clause>>, filter: bool, cmp: Comparison)
    requires clauses.Some? ==> forall c :: c in clauses.value ==> Resolved(c, row)
    ensures Counts(row, clauses, filter, cmp) == Some(true) <==> Passes(row, clauses, filter, cmp)
  {
    if clauses.Some? { ListExact(clauses.value, row, cmp); }
  }

  /** What is kept of a source is the sent columns of exactly the rows that pass. */
  lemma KeptSelected(rows: seq<seq<Data>>, send: seq<bool>, clauses: Option<seq<Clause>>, filter: bool,
                     cmp: Comparison)
    requires AllResolved(rows, clauses) && Kept(rows, send, clauses, filter, cmp).Some?
    ensures Selected(Kept(rows, send, clauses, filter, cmp).value, rows, send, clauses, filter, cmp)
  {
    hide Kept, Positions, ArePassing, StoresAll, AllResolved;
    PositionsPass(rows, clauses, filter, cmp);
    KeptStores(rows, send, clauses, filter, cmp);
  }

  lemma PositionsPass(rows: seq<seq<Data>>, clauses: Option<seq<Clause>>, filter: bool, cmp: Comparison)
    requires AllResolved(rows, clauses)
    ensures ArePassing(Positions(rows, 0, clauses, filter, cmp), rows, clauses, filter, cmp)
  {
    hide Positions, Counts, Passes, Resolved;
    PositionsExact(rows, 0, clauses, filter, cmp);
    forall i | 0 <= i < |rows|
      ensures Counts(rows[i], clauses, filter, cmp) == Some(true) <==> Passes(rows[i], clauses, filter, cmp) {
      PassesExact(rows[i], clauses, filter, cmp);
    }
  }

  lemma KeptStores(rows: seq<seq<Data>>, send: seq<bool>, clauses: Option<seq<Clause>>, filter: bool,
                   cmp: Comparison)
    requires Kept(rows, send, clauses, filter, cmp).Some?
    ensures StoresAll(Kept(rows, send, clauses, filter, cmp).value, rows,
                      Positions(rows, 0, clauses, filter, cmp), send)
  {
    hide Kept, Positions, Counts, Sent, Stores;
    assert rows[0..] == rows;
    KeptExact(rows, 0, send, clauses, filter, cmp);
    var ps, stored := Positions(rows, 0, clauses, filter, cmp), Kept(rows, send, clauses, filter, cmp).value;
    forall j | 0 <= j < |ps| ensures ps[j] < |rows| && Stores(stored[j], rows[ps[j]], send) {
      StoresSent(rows[ps[j]], send);
    }
  }

  lemma StoresSent(row: seq<Data>, send: seq<bool>)
    ensures Stores(Row(Sent(row, send)), row, send)
  {
    SentExact(row, send);
  }

  // ---------------------------------------------------------------- the sequence

  class Sequence {
    const clauses: Option<seq<Clause>>
    const send: seq<bool>
    const cmp: Comparison
    /** The rows the data source has not delivered yet, and the row it delivered last. */
    var source: seq<seq<Data>>
    var current: seq<Data>
    var length: int
    var readP: bool
    var values: seq<Row>

    constructor (source: seq<seq<Data>>, send: seq<bool>, clauses: Option<seq<Clause>>, cmp: Comparison)
      ensures this.source == source && this.send == send && this.clauses == clauses && this.cmp == cmp
      ensures length == 0 && !readP && values == []
    {
      this.source, this.send, this.clauses, this.cmp := source, send, clauses, cmp;
      current, length, readP, values := [], 0, false, [];
    }

    /** read(): the next row, or the end of the source. */
    method Read() returns (eof: bool)
      modifies `source, `current
      ensures eof <==> old(source) == []
      ensures if eof then source == old(source) && current == old(current)
              else source == old(source)[1..] && current == old(source)[0]
    {
      if source == [] { return true; }
      current, source := source[0], source[1..];
      return false;
    }

    /** D4FilterClauseList::value. */
    method ClausesValue(cs: seq<Clause>) returns (r: Option<bool>)
      ensures r == ListValue(cs, current, cmp)
    {
      var i := 0;
      assert cs[0..] == cs;
      while i < |cs|
        invariant 0 <= i <= |cs| && ListValue(cs[i..], current, cmp) == ListValue(cs, current, cmp)
      {
        assert cs[i..][0] == cs[i] && cs[i..][1..] == cs[i + 1..];
        var v := ClauseValue(cs[i], current, cmp);
        if v != Some(true) { return v; }
        i := i + 1;
      }
      return Some(true);
    }

    /** read_next_instance: rows are read until one counts or the source ends; None is the
        exception of a clause. */
    method ReadNextInstance(filter: bool) returns (more: Option<bool>)
      modifies `source, `current, `length, `readP
      ensures source == old(source) || |source| < |old(source)|
      ensures match more
        case None => Kept(old(source), send, clauses, filter, cmp) == None
        case Some(b) =>
          if b then
            && |source| < |old(source)| && Counts(current, clauses, filter, cmp) == Some(true)
            && Kept(old(source), send, clauses, filter, cmp)
               == Prepend(Row(Sent(current, send)), Kept(source, send, clauses, filter, cmp))
          else source == [] && Kept(old(source), send, clauses, filter, cmp) == Some([])
    {
      var eof, done := false, false;
      while !eof && !done
        invariant !eof && !done
        invariant source == old(source) || |source| < |old(source)|
        invariant Kept(source, send, clauses, filter, cmp) == Kept(old(source), send, clauses, filter, cmp)
        decreases |source|
      {
        ghost var before := source;
        eof := Read();
        if eof { break; }
        if filter && clauses.Some? {
          var v := ClausesValue(clauses.value);
          if v.None? { return None; }
          done := v.value;
        } else {
          done := true;
        }
        KeptStep(before, send, clauses, filter, cmp);
        readP := false;
        if done {
          length := length + 1;
          break;
        }
      }
      return Some(!eof);
    }

    /** read_sequence_values: everything the source still has, unless the values have been read
        already; `ok` is false for an exception. */
    method ReadSequenceValues(filter: bool) returns (ok: bool)
      modifies this
      ensures old(readP) ==> ok && values == old(values) && source == old(source) && length == old(length)
      ensures !old(readP) ==> (ok <==> Kept(old(source), send, clauses, filter, cmp).Some?)
      ensures !old(readP) && ok ==>
        && source == [] && length == |values|
        && values == old(values) + Kept(old(source), send, clauses, filter, cmp).value
      ensures !old(readP) && ok && AllResolved(old(source), clauses) ==>
        && old(values) <= values
        && Selected(values[|old(values)|..], old(source), send, clauses, filter, cmp)
    {
      hide *;
      ghost var rows := source;
      if readP { return true; }
      var more := ReadNextInstance(filter);
      ghost var left := Kept(old(source), send, clauses, filter, cmp);
      JoinNothing(values, Some([]));
      JoinNothing(values, Prepend(Row(Sent(current, send)), Kept(source, send, clauses, filter, cmp)));
      while more == Some(true)
        invariant match more
          case None => left == None
          case Some(b) =>
            if b then
              var more := Kept(source, send, clauses, filter, cmp);
              left == Join(values, old(values), Prepend(Row(Sent(current, send)), more))
            else source == [] && left == Join(values, old(values), Some([]))
        invariant |values| >= |old(values)| && values[..|old(values)|] == old(values)
        decreases |source|, more == Some(true)
      {
        ghost var was, rest := values, Kept(source, send, clauses, filter, cmp);
        var row := Row(Sent(current, send));
        values := values + [row];
        JoinStep(was, old(values), row, rest);
        more := ReadNextInstance(filter);
        JoinNone(values, old(values));
      }
      if more.None? { return false; }
      JoinEnd(values, old(values));
      assert values[|old(values)|..] == Kept(rows, send, clauses, filter, cmp).value;
      if AllResolved(rows, clauses) { KeptSelected(rows, send, clauses, filter, cmp); }
      length := |values|;
      return true;
    }

    /** The rows that serialize() sends: those read before, and the source's unless the values
        are marked as read. */
    ghost function Outgoing(filter: bool): Option<seq<Row>>
      reads this
    {
      if readP then Some(values)
      else match Kept(source, send, clauses, filter, cmp) case None => None case Some(rows) => Some(values + rows)
    }

    /** serialize(): the number of rows, then the rows.  Whoever marks the values as read has to
        set the length, too. */
    method Serialize(m: Marshaller, filter: bool) returns (ok: bool)
      requires readP ==> length == |values|
      requires Outgoing(filter).Some? ==> TypedRows(Outgoing(filter).value)
      modifies this, m
      ensures ok <==> old(Outgoing(filter)).Some? && SendableRows(old(Outgoing(filter)).value)
      ensures ok ==> values == old(Outgoing(filter)).value
      ensures ok ==> m.out == old(m.out) + Emit(D4Data.Sequence(values), m.writeData, m.big)
    {
      hide Kept, SendableRows, TypedRows, EmitRows, CrcFold, PayloadRows, Count;
      ok := ReadSequenceValues(filter);
      if !ok { return; }
      m.PutCount(length);
      ok := m.SerializeRows(values);
      if ok {
        assert old(m.out) + Count(|values|, m.big) + EmitRows(values, m.writeData, m.big)
            == old(m.out) + (Count(|values|, m.big) + EmitRows(values, m.writeData, m.big));
      }
    }
  }

  function Prepend(row: Row, r: Option<seq<Row>>): Option<seq<Row>> {
    match r case None => None case Some(rest) => Some([row] + rest)
  }

  /** The rows read so far, beyond those that were there at first, and those still to come. */
  function Join(values: seq<Row>, first: seq<Row>, r: Option<seq<Row>>): Option<seq<Row>> {
    match r
    case None => None
    case Some(rest) => if |first| <= |values| then Some(values[|first|..] + rest) else None
  }

  lemma JoinNothing(values: seq<Row>, r: Option<seq<Row>>)
    ensures Join(values, values, r) == r
  {
    if r.Some? { assert values[|values|..] + r.value == r.value; }
  }

  lemma JoinNone(values: seq<Row>, first: seq<Row>)
    ensures Join(values, first, None) == None
  {
  }

  lemma JoinEnd(values: seq<Row>, first: seq<Row>)
    requires |values| >= |first| && values[..|first|] == first
    ensures var r := Join(values, first, Some([])); r.Some? && values == first + r.value
  {
    assert values[|first|..] + [] == values[|first|..];
  }

  lemma JoinStep(values: seq<Row>, first: seq<Row>, row: Row, r: Option<seq<Row>>)
    requires |first| <= |values|
    ensures Join(values + [row], first, r) == Join(values, first, Prepend(row, r))
  {
    if r.Some? {
      assert (values + [row])[|first|..] == values[|first|..] + [row];
      assert values[|first|..] + [row] + r.value == values[|first|..] + ([row] + r.value);
    }
  }

  lemma KeptStep(rows: seq<seq<Data>>, send: seq<bool>, clauses: Option<seq<Clause>>, filter: bool, cmp: Comparison)
    requires rows != [] && Counts(rows[0], clauses, filter, cmp).Some?
    ensures Kept(rows, send, clauses, filter, cmp) ==
      var rest := Kept(rows[1..], send, clauses, filter, cmp);
      if Counts(rows[0], clauses, filter, cmp).value then Prepend(Row(Sent(rows[0], send)), rest) else rest
  {
    var rest := Kept(rows[1..], send, clauses, filter, cmp);
    if rest.Some? { assert [] + rest.value == rest.value; }
  }
}
