/** The values of DAP4 variables, the variables that receive them, and the byte stream in
    between, as functions. */
module D4Data {
  import opened Wrappers
  import opened Bytes

  // ---------------------------------------------------------------- the sending side

  /** A value with its send flags.  `Fixed` is a number in host byte order; `Text` is a string,
      a URL or an opaque. */
  datatype Data =
    | Fixed(bytes: seq<Byte>)
    | Text(opaqueType: bool, bytes: seq<Byte>)
    | Vector(elems: seq<Data>)
    | Structure(members: seq<Member>)
    | Sequence(rows: seq<Row>)

  datatype Member = Member(send: bool, data: Data)

  /** A row of a sequence: the values of its sent columns. */
  datatype Row = Row(cells: seq<Data>)

  datatype Group = Group(send: bool, groups: seq<Group>, vars: seq<Member>)

  /** A length or a count: an int64_t in host order. */
  function Count(n: nat, big: bool): (r: seq<Byte>)
    ensures |r| == 8
  {
    Word(n, 8, big)
  }

  /** What serialize() puts on the stream for a value; with `write` off only counts go out. */
  function Emit(d: Data, write: bool, big: bool): seq<Byte>
    decreases d, 0
  {
    match d
    case Fixed(b) => if write then b else []
    case Text(_, b) => if write then Count(|b|, big) + b else []
    case Vector(es) => EmitAll(es, write, big)
    case Structure(ms) => EmitSent(ms, write, big)
    case Sequence(rows) => Count(|rows|, big) + EmitRows(rows, write, big)
  }

  function EmitAll(ds: seq<Data>, write: bool, big: bool): seq<Byte>
    decreases ds, 1
  {
    if ds == [] then [] else Emit(ds[0], write, big) + EmitAll(ds[1..], write, big)
  }

  function EmitRows(rows: seq<Row>, write: bool, big: bool): seq<Byte>
    decreases rows, 2
  {
    if rows == [] then [] else EmitAll(rows[0].cells, write, big) + EmitRows(rows[1..], write, big)
  }

  function EmitSent(ms: seq<Member>, write: bool, big: bool): seq<Byte>
    decreases ms, 1
  {
    if ms == [] then [] else EmitMember(ms[0], write, big) + EmitSent(ms[1..], write, big)
  }

  function EmitMember(m: Member, write: bool, big: bool): seq<Byte>
    decreases m, 0
  {
    if m.send then Emit(m.data, write, big) else []
  }

  /** The bytes that count for the checksum: the values themselves, without any lengths. */
  function Payload(d: Data): seq<Byte>
    decreases d, 0
  {
    match d
    case Fixed(b) => b
    case Text(_, b) => b
    case Vector(es) => PayloadAll(es)
    case Structure(ms) => PayloadSent(ms)
    case Sequence(rows) => PayloadRows(rows)
  }

  function PayloadAll(ds: seq<Data>): seq<Byte>
    decreases ds, 1
  {
    if ds == [] then [] else Payload(ds[0]) + PayloadAll(ds[1..])
  }

  function PayloadRows(rows: seq<Row>): seq<Byte>
    decreases rows, 2
  {
    if rows == [] then [] else PayloadAll(rows[0].cells) + PayloadRows(rows[1..])
  }

  function PayloadSent(ms: seq<Member>): seq<Byte>
    decreases ms, 1
  {
    if ms == [] then [] else PayloadMember(ms[0]) + PayloadSent(ms[1..])
  }

  function PayloadMember(m: Member): seq<Byte>
    decreases m, 0
  {
    if m.send then Payload(m.data) else []
  }

  /** One top-level variable: its bytes and then its checksum. */
  function EmitVar(d: Data, write: bool, big: bool): seq<Byte> {
    Emit(d, write, big) + ChecksumBytes(Checksum(Payload(d)), big)
  }

  function EmitVars(vs: seq<Member>, write: bool, big: bool): seq<Byte> {
    if vs == [] then []
    else (if vs[0].send then EmitVar(vs[0].data, write, big) else []) + EmitVars(vs[1..], write, big)
  }

  /** A group: first its child groups, whatever their send flags say, then its variables. */
  function EmitGroup(g: Group, write: bool, big: bool): seq<Byte>
    decreases g, 0
  {
    EmitGroups(g.groups, write, big) + EmitVars(g.vars, write, big)
  }

  function EmitGroups(gs: seq<Group>, write: bool, big: bool): seq<Byte>
    decreases gs, 1
  {
    if gs == [] then [] else EmitGroup(gs[0], write, big) + EmitGroups(gs[1..], write, big)
  }

  // ---------------------------------------------------------------- what is sent

  /** A value without the members that are not sent. */
  function Project(d: Data): Data
    decreases d, 0
  {
    match d
    case Fixed(b) => d
    case Text(_, b) => d
    case Vector(es) => Vector(ProjectAll(es))
    case Structure(ms) => Structure(ProjectSent(ms))
    case Sequence(rows) => Sequence(ProjectRows(rows))
  }

  function ProjectAll(ds: seq<Data>): (r: seq<Data>)
    ensures |r| == |ds|
    decreases ds, 1
  {
    if ds == [] then [] else [Project(ds[0])] + ProjectAll(ds[1..])
  }

  function ProjectRows(rows: seq<Row>): (r: seq<Row>)
    ensures |r| == |rows|
    decreases rows, 2
  {
    if rows == [] then [] else [Row(ProjectAll(rows[0].cells))] + ProjectRows(rows[1..])
  }

  function ProjectSent(ms: seq<Member>): seq<Member>
    decreases ms, 1
  {
    if ms == [] then [] else ProjectMember(ms[0]) + ProjectSent(ms[1..])
  }

  function ProjectMember(m: Member): seq<Member>
    decreases m, 0
  {
    if m.send then [Member(true, Project(m.data))] else []
  }

  /** The data set that a constrained DMR describes: unsent groups are left out with all they
      hold, and so are unsent variables and members. */
  function ProjectGroup(g: Group): Group
    decreases g, 0
  {
    Group(g.send, ProjectGroups(g.groups), ProjectSent(g.vars))
  }

  function ProjectGroups(gs: seq<Group>): seq<Group>
    decreases gs, 1
  {
    if gs == [] then [] else (if gs[0].send then [ProjectGroup(gs[0])] else []) + ProjectGroups(gs[1..])
  }

  // ---------------------------------------------------------------- the receiving side

  /** A variable that receives values.  A vector copies its prototype for every element; a
      sequence keeps one variable per column and copies them into each row. */
  datatype Recv =
    | RFixed(width: nat, bytes: seq<Byte>)
    | RText(opaqueType: bool, bytes: seq<Byte>)
    | RVector(size: nat, proto: Recv, elems: seq<Recv>)
    | RStructure(members: seq<Recv>)
    | RSequence(columns: seq<Recv>, length: int, rows: seq<RRow>)

  datatype RRow = RRow(cells: seq<Recv>)

  /** What is left of the stream after reading, or None when reading throws. */
  type Reading<T> = Option<(T, seq<Byte>)>

  /** A count as int64_t; the byte order is never corrected. */
  function ReadCount(input: seq<Byte>, big: bool): Reading<int> {
    if |input| < 8 then None
    else
      var v := WordValue(input[..8], big);
      Some((if v < TWO_TO_63 then v else v - 2 * TWO_TO_63, input[8..]))
  }

  /** A count is the int64_t that has the bits of the first eight bytes. */
  lemma CountIsInt64(input: seq<Byte>, big: bool)
    ensures var r := ReadCount(input, big);
      && (r.Some? <==> |input| >= 8)
      && (r.Some? ==>
            && -TWO_TO_63 <= r.value.0 < TWO_TO_63 && r.value.1 == input[8..]
            && r.value.0 == WordValue(input[..8], big) - if r.value.0 < 0 then 2 * TWO_TO_63 else 0)
  {
    if |input| >= 8 {
      EightBytes();
      WordOf(input[..8], big);
    }
  }

  /** The size of a variable's declaration, whatever values it holds. */
  function Extent(v: Recv): (n: nat)
    ensures n > 0
  {
    match v
    case RFixed(_, _) => 1
    case RText(_, _) => 1
    case RVector(_, proto, _) => 1 + Extent(proto)
    case RStructure(ms) => 1 + ExtentAll(ms)
    case RSequence(cols, _, _) => 1 + ExtentAll(cols)
  }

  function ExtentAll(vs: seq<Recv>): nat {
    if vs == [] then 0 else Extent(vs[0]) + ExtentAll(vs[1..])
  }

  /** deserialize() on a host of byte order `big`; `twiddle` says to reverse numbers. */
  function Decode(v: Recv, input: seq<Byte>, big: bool, twiddle: bool): (r: Reading<Recv>)
    ensures r.Some? ==> Extent(r.value.0) == Extent(v)
    decreases Extent(v), 0
  {
    match v
    case RFixed(w, _) =>
      if |input| < w then None
      else Some((RFixed(w, if twiddle then Reversed(input[..w]) else input[..w]), input[w..]))
    case RText(o, _) =>
      (match ReadCount(input, big)
       case None => None
       case Some((n, rest)) =>
         if n < 0 || |rest| < n then None else Some((RText(o, rest[..n]), rest[n..])))
    case RVector(n, proto, _) =>
      (match DecodeCopies(proto, n, input, big, twiddle)
       case None => None
       case Some((es, rest)) => Some((RVector(n, proto, es), rest)))
    case RStructure(ms) =>
      (match DecodeAll(ms, input, big, twiddle)
       case None => None
       case Some((ms1, rest)) => Some((RStructure(ms1), rest)))
    case RSequence(cols, _, rows) =>
      (match ReadCount(input, big)
       case None => None
       case Some((n, rest)) =>
         match DecodeRows(cols, rows, if n < 0 then 0 else n, rest, big, twiddle)
         case None => None
         case Some(((cols1, rows1), rest1)) => Some((RSequence(cols1, n, rows1), rest1)))
  }

  function DecodeAll(vs: seq<Recv>, input: seq<Byte>, big: bool, twiddle: bool): (r: Reading<seq<Recv>>)
    ensures r.Some? ==> |r.value.0| == |vs| && ExtentAll(r.value.0) == ExtentAll(vs)
    decreases ExtentAll(vs), |vs| + 1
  {
    if vs == [] then Some(([], input))
    else match Decode(vs[0], input, big, twiddle)
      case None => None
      case Some((v, rest)) =>
        match DecodeAll(vs[1..], rest, big, twiddle)
        case None => None
        case Some((vs1, rest1)) => Some(([v] + vs1, rest1))
  }

  function DecodeCopies(proto: Recv, n: nat, input: seq<Byte>, big: bool, twiddle: bool): Reading<seq<Recv>>
    decreases Extent(proto), n + 1
  {
    if n == 0 then Some(([], input))
    else match Decode(proto, input, big, twiddle)
      case None => None
      case Some((v, rest)) =>
        match DecodeCopies(proto, n - 1, rest, big, twiddle)
        case None => None
        case Some((vs, rest1)) => Some(([v] + vs, rest1))
  }

  /** The loop of D4Sequence::deserialize: the same column variables are read again for every
      row, and their copies become the row. */
  function DecodeRows(cols: seq<Recv>, rows: seq<RRow>, n: nat, input: seq<Byte>, big: bool, twiddle: bool)
    : (r: Reading<(seq<Recv>, seq<RRow>)>)
    ensures r.Some? ==> ExtentAll(r.value.0.0) == ExtentAll(cols)
    decreases ExtentAll(cols), |cols| + 2 + n
  {
    if n == 0 then Some(((cols, rows), input))
    else match DecodeAll(cols, input, big, twiddle)
      case None => None
      case Some((cols1, rest)) => DecodeRows(cols1, rows + [RRow(cols1)], n - 1, rest, big, twiddle)
  }

  // ---------------------------------------------------------------- groups received

  /** The received value of a top-level variable and the checksum stored with it. */
  datatype Checked = Checked(variable: Recv, checksum: nat)

  datatype RGroup = RGroup(groups: seq<RGroup>, vars: seq<Recv>)

  datatype CheckedGroup = CheckedGroup(groups: seq<CheckedGroup>, vars: seq<Checked>)

  function DecodeVars(vs: seq<Recv>, input: seq<Byte>, big: bool, twiddle: bool): Reading<seq<Checked>> {
    if vs == [] then Some(([], input))
    else match Decode(vs[0], input, big, twiddle)
      case None => None
      case Some((v, rest)) =>
        if |rest| < 4 then None
        else match DecodeVars(vs[1..], rest[4..], big, twiddle)
          case None => None
          case Some((cs, rest1)) => Some(([Checked(v, WordValue(rest[..4], big))] + cs, rest1))
  }

  function DecodeGroup(g: RGroup, input: seq<Byte>, big: bool, twiddle: bool): Reading<CheckedGroup>
    decreases g, 0
  {
    match DecodeGroups(g.groups, input, big, twiddle)
    case None => None
    case Some((gs, rest)) =>
      match DecodeVars(g.vars, rest, big, twiddle)
      case None => None
      case Some((cs, rest1)) => Some((CheckedGroup(gs, cs), rest1))
  }

  function DecodeGroups(gs: seq<RGroup>, input: seq<Byte>, big: bool, twiddle: bool): Reading<seq<CheckedGroup>>
    decreases gs, 1
  {
    if gs == [] then Some(([], input))
    else match DecodeGroup(gs[0], input, big, twiddle)
      case None => None
      case Some((g, rest)) =>
        match DecodeGroups(gs[1..], rest, big, twiddle)
        case None => None
        case Some((gs1, rest1)) => Some(([g] + gs1, rest1))
  }
}
