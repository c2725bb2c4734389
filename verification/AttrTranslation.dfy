/** Attribute tables from DAP2 to DAP4 and back. */
module AttrTranslation {
  import opened Wrappers
  import opened DmrTree
  import opened SpaceEncoding

  /** AttrType of DAP2. */
  datatype D2Type =
    | Unknown | ContainerT2 | ByteT2 | Int16T2 | UInt16T2 | Int32T2 | UInt32T2
    | Float32T2 | Float64T2 | StringT2 | UrlT2 | OtherXmlT2

  /** An entry of a DAP2 table. */
  datatype Entry =
    | Values(name: string, typ: D2Type, values: seq<string>)
    | Table(name: string, entries: seq<Entry>)

  // ---------------------------------------------------------------- types

  /** The switch of transform_to_dap4 on a type that is not a container; None is the exception. */
  function ToDap4Type(t: D2Type): Option<AttrType> {
    match t
    case ByteT2 => Some(ByteA)
    case Int16T2 => Some(Int16A)
    case UInt16T2 => Some(UInt16A)
    case Int32T2 => Some(Int32A)
    case UInt32T2 => Some(UInt32A)
    case Float32T2 => Some(Float32A)
    case Float64T2 => Some(Float64A)
    case StringT2 => Some(StrA)
    case UrlT2 => Some(UrlA)
    case OtherXmlT2 => Some(OtherXmlA)
    case _ => None
  }

  /** get_dap2_AttrType. */
  function ToDap2Type(t: AttrType): Option<D2Type> {
    match t
    case ContainerA => Some(ContainerT2)
    case ByteA => Some(ByteT2)
    case Int16A => Some(Int16T2)
    case UInt16A => Some(UInt16T2)
    case Int32A => Some(Int32T2)
    case UInt32A => Some(UInt32T2)
    case Float32A => Some(Float32T2)
    case Float64A => Some(Float64T2)
    case StrA => Some(StringT2)
    case UrlA => Some(UrlT2)
    case OtherXmlA => Some(OtherXmlT2)
    case Int8A => Some(ByteT2)
    case UInt8A => Some(ByteT2)
    case _ => None
  }

  /** AttrType_to_String. */
  function TypeString(t: D2Type): string {
    match t
    case Unknown => ""
    case ContainerT2 => "Container"
    case ByteT2 => "Byte"
    case Int16T2 => "Int16"
    case UInt16T2 => "UInt16"
    case Int32T2 => "Int32"
    case UInt32T2 => "UInt32"
    case Float32T2 => "Float32"
    case Float64T2 => "Float64"
    case StringT2 => "String"
    case UrlT2 => "Url"
    case OtherXmlT2 => "OtherXML"
  }

  /** String_to_AttrType. */
  function StringType(s: string): D2Type {
    var d := Downcase(s);
    if d == "container" then ContainerT2
    else if d == "byte" then ByteT2
    else if d == "int16" then Int16T2
    else if d == "uint16" then UInt16T2
    else if d == "int32" then Int32T2
    else if d == "uint32" then UInt32T2
    else if d == "float32" then Float32T2
    else if d == "float64" then Float64T2
    else if d == "string" then StringT2
    else if d == "url" then UrlT2
    else if d == "otherxml" then OtherXmlT2
    else Unknown
  }

  /** The DAP4 attribute type with the same name. */
  function Twin(t: D2Type): AttrType {
    match t
    case Unknown => NullA
    case ContainerT2 => ContainerA
    case _ => ToDap4Type(t).value
  }

  lemma TypeNamesReturn(t: D2Type)
    ensures StringType(TypeString(t)) == t
  {
    DowncaseName(Twin(t));
    assert Downcase("") == "";
    var s := TypeString(t);
    assert t != Unknown ==> s == AttrTypeName(Twin(t));
    assert Downcase(s) == if t == Unknown then "" else LowerAttrTypeName(Twin(t));
    hide Downcase;
  }

  /** Type names read back, and every DAP2 value type goes to the DAP4 type of that name and
      back. */
  lemma TypesReturn(t: D2Type)
    ensures StringType(TypeString(t)) == t
    ensures t !in {Unknown, ContainerT2} <==> ToDap4Type(t).Some?
    ensures ToDap4Type(t).Some? ==>
      AttrTypeName(ToDap4Type(t).value) == TypeString(t) && ToDap2Type(ToDap4Type(t).value) == Some(t)
  {
    TypeNamesReturn(t);
    hide StringType;
  }

  /** The type name under which a DAP4 attribute goes into a DAP2 table. */
  function NameInDap2(t: AttrType): string { if t in {Int8A, UInt8A} then "Byte" else AttrTypeName(t) }

  /** The types that DAP2 does not have. */
  const NOT_IN_DAP2: set<AttrType> := {NullA, Int64A, UInt64A, EnumA, OpaqueA}

  lemma TypeInDap2(t: AttrType)
    ensures ToDap2Type(t).Some? <==> t !in NOT_IN_DAP2
    ensures ToDap2Type(t).Some? ==> TypeString(ToDap2Type(t).value) == NameInDap2(t)
  {
  }

  lemma SameTypeName(a: D2Type, b: D2Type)
    ensures TypeString(a) == TypeString(b) <==> a == b
  {
    TypeNamesReturn(a);
    TypeNamesReturn(b);
  }

  // ---------------------------------------------------------------- DAP2 to DAP4

  /** D4Attributes::transform_to_dap4. */
  function ToDap4(es: seq<Entry>): Option<seq<Attr>>
    decreases es, 0
  {
    if es == [] then Some([])
    else match ToDap4Entry(es[0])
      case None => None
      case Some(a) => match ToDap4(es[1..]) case None => None case Some(rest) => Some([a] + rest)
  }

  function ToDap4Entry(e: Entry): Option<Attr>
    decreases e, 1
  {
    match e
    case Table(n, es) =>
      (match ToDap4(es) case None => None case Some(attrs) => Some(Container(n, attrs)))
    case Values(n, t, vs) =>
      (match ToDap4Type(t) case None => None case Some(t4) => Some(Leaf(n, t4, vs)))
  }

  // ---------------------------------------------------------------- DAP4 to DAP2

  /** AttrTable::simple_find. */
  function IndexOf(es: seq<Entry>, name: string): (r: Option<nat>)
    ensures r.Some? ==> r.value < |es| && es[r.value].name == name
    ensures r.None? ==> forall e :: e in es ==> e.name != name
  {
    if es == [] then None
    else if es[0].name == name then Some(0)
    else match IndexOf(es[1..], name) case None => None case Some(i) => Some(i + 1)
  }

  /** AttrTable::append_attr: one more value of an attribute, or a new attribute. */
  function AppendAttr(es: seq<Entry>, name: string, typ: D2Type, value: string): Option<seq<Entry>> {
    var n := Removed(name);
    match IndexOf(es, n)
    case None => Some(es + [Values(n, typ, [value])])
    case Some(i) =>
      if es[i].Table? || es[i].typ != typ then None
      else Some(es[i := es[i].(values := es[i].values + [value])])
  }

  function AppendValues(es: seq<Entry>, name: string, typ: D2Type, vs: seq<string>): Option<seq<Entry>>
    decreases |vs|
  {
    if vs == [] then Some(es)
    else match AppendAttr(es, name, typ, vs[0])
      case None => None
      case Some(es1) => AppendValues(es1, name, typ, vs[1..])
  }

  /** AttrTable::append_attr with a list of values. */
  function AppendAttrs(es: seq<Entry>, name: string, typ: D2Type, vs: seq<string>): Option<seq<Entry>> {
    var n := Removed(name);
    match IndexOf(es, n)
    case None => Some(es + [Values(n, typ, vs)])
    case Some(i) =>
      if es[i].Table? || es[i].typ != typ then None
      else Some(es[i := es[i].(values := es[i].values + vs)])
  }

  /** AttrTable::append_container, which looks for the name as it is but stores it decoded. */
  function AppendContainer(es: seq<Entry>, name: string, sub: seq<Entry>): Option<seq<Entry>> {
    if IndexOf(es, name).Some? then None else Some(es + [Table(Removed(name), sub)])
  }

  /** D4Attributes::transform_attrs_to_dap2 into a table that holds `es` already. */
  function ToDap2(es: seq<Entry>, attrs: seq<Attr>): Option<seq<Entry>>
    decreases attrs, 0
  {
    if attrs == [] then Some(es)
    else match ToDap2Attr(es, attrs[0])
      case None => None
      case Some(es1) => ToDap2(es1, attrs[1..])
  }

  function ToDap2Attr(es: seq<Entry>, a: Attr): Option<seq<Entry>>
    decreases a, 1
  {
    match a
    case Container(n, attrs) =>
      (match ToDap2([], attrs) case None => None case Some(sub) => AppendContainer(es, n, sub))
    case Leaf(n, t, vs) =>
      match ToDap2Type(t)
      case None => None
      case Some(t2) => AppendValues(es, n, StringType(TypeString(t2)), vs)
  }

  /** The whole trip. */
  function ThereAndBack(es: seq<Entry>): Option<seq<Entry>> {
    match ToDap4(es) case None => None case Some(attrs) => ToDap2([], attrs)
  }

  /** A leaf with values in an empty table: 64-bit integers, enumerations, opaques and the null
      type throw; otherwise its values stand under its decoded name and the name of its own
      type, but for the 8-bit integers, which become bytes. */
  lemma LeafGoes(n: string, t: AttrType, vs: seq<string>)
    requires vs != []
    ensures var r := ToDap2([], [Leaf(n, t, vs)]);
      && (r.None? <==> t in {NullA, Int64A, UInt64A, EnumA, OpaqueA})
      && (r.Some? ==>
            && |r.value| == 1 && r.value[0].Values?
            && r.value[0].name == Removed(n) && r.value[0].values == vs
            && TypeString(r.value[0].typ) == if t in {Int8A, UInt8A} then "Byte" else AttrTypeName(t))
  {
    TypeInDap2(t);
    if ToDap2Type(t).Some? {
      var t2 := ToDap2Type(t).value;
      TypeNamesReturn(t2);
      NewValues([], n, t2, vs);
      assert [Leaf(n, t, vs)][1..] == [];
    }
  }

  // ---------------------------------------------------------------- what survives

  ghost predicate FitEntry(e: Entry)
    decreases e, 0
  {
    NoCode(e.name)
    && match e
       case Values(_, t, vs) => t !in {Unknown, ContainerT2} && vs != []
       case Table(_, es) => Fit(es)
  }

  /** Names without "%20", different from each other, known types, at least one value; at every
      depth. */
  ghost predicate Fit(es: seq<Entry>)
    decreases es, 1
  {
    && (forall i, j :: 0 <= i < j < |es| ==> es[i].name != es[j].name)
    && forall i :: 0 <= i < |es| ==> FitEntry(es[i])
  }

  lemma {:induction false} IndexOfLast(es: seq<Entry>, e: Entry)
    requires forall x :: x in es ==> x.name != e.name
    ensures IndexOf(es + [e], e.name) == Some(|es|)
    decreases |es|
  {
    if es == [] {
      assert [] + [e] == [e];
    } else {
      assert (es + [e])[0] == es[0] && (es + [e])[1..] == es[1..] + [e];
      IndexOfLast(es[1..], e);
    }
  }

  lemma IndexOfNone(es: seq<Entry>, n: string)
    requires forall x :: x in es ==> x.name != n
    ensures IndexOf(es, n) == None
  {
  }

  /** More values for the attribute at the end of the table. */
  lemma {:induction false} MoreValues(es: seq<Entry>, n: string, t: D2Type, done: seq<string>, vs: seq<string>)
    requires forall x :: x in es ==> x.name != Removed(n)
    ensures AppendValues(es + [Values(Removed(n), t, done)], n, t, vs) == Some(es + [Values(Removed(n), t, done + vs)])
    decreases |vs|
  {
    if vs == [] {
      assert done + vs == done;
    } else {
      var e := Values(Removed(n), t, done);
      IndexOfLast(es, e);
      var e1 := Values(Removed(n), t, done + [vs[0]]);
      assert (es + [e])[|es| := e1] == es + [e1];
      MoreValues(es, n, t, done + [vs[0]], vs[1..]);
      assert done + [vs[0]] + vs[1..] == done + vs;
    }
  }

  lemma NewValues(es: seq<Entry>, n: string, t: D2Type, vs: seq<string>)
    requires vs != [] && forall x :: x in es ==> x.name != Removed(n)
    ensures AppendValues(es, n, t, vs) == Some(es + [Values(Removed(n), t, vs)])
  {
    IndexOfNone(es, Removed(n));
    MoreValues(es, n, t, [vs[0]], vs[1..]);
    assert [vs[0]] + vs[1..] == vs;
  }

  lemma {:induction false} EntryReturns(done: seq<Entry>, e: Entry)
    requires FitEntry(e) && forall x :: x in done ==> x.name != e.name
    ensures ToDap4Entry(e).Some? && ToDap2Attr(done, ToDap4Entry(e).value) == Some(done + [e])
    decreases e, 0
  {
    RemovedNothing(e.name);
    match e
    case Values(n, t, vs) =>
      TypesReturn(t);
      NewValues(done, n, t, vs);
    case Table(n, es) =>
      EntriesReturn([], es);
      IndexOfNone(done, n);
      assert [] + es == es;
  }

  lemma {:induction false} EntriesReturn(done: seq<Entry>, es: seq<Entry>)
    requires Fit(es) && forall i, x :: 0 <= i < |es| && x in done ==> x.name != es[i].name
    ensures ToDap4(es).Some? && ToDap2(done, ToDap4(es).value) == Some(done + es)
    decreases es, 1
  {
    hide *;
    if es == [] {
      assert done + es == done;
      Nothing(done);
    } else {
      FitTail(done, es);
      EntryReturns(done, es[0]);
      EntriesReturn(done + [es[0]], es[1..]);
      assert done + [es[0]] + es[1..] == done + es;
      OneByOne(done, es);
    }
  }

  lemma Nothing(done: seq<Entry>)
    ensures ToDap4([]) == Some([]) && ToDap2(done, []) == Some(done)
  {
  }

  /** Both translations go entry by entry. */
  lemma OneByOne(done: seq<Entry>, es: seq<Entry>)
    requires es != [] && ToDap4Entry(es[0]).Some? && ToDap4(es[1..]).Some?
    ensures ToDap4(es).Some?
    ensures ToDap2(done, ToDap4(es).value) ==
      match ToDap2Attr(done, ToDap4Entry(es[0]).value)
      case None => None
      case Some(next) => ToDap2(next, ToDap4(es[1..]).value)
  {
    hide ToDap4Entry, ToDap2Attr;
    var a, more := ToDap4Entry(es[0]).value, ToDap4(es[1..]).value;
    assert ([a] + more)[0] == a && ([a] + more)[1..] == more;
  }

  lemma FitTail(done: seq<Entry>, es: seq<Entry>)
    requires Fit(es) && es != [] && forall i, x :: 0 <= i < |es| && x in done ==> x.name != es[i].name
    ensures FitEntry(es[0]) && Fit(es[1..]) && forall x :: x in done ==> x.name != es[0].name
    ensures forall i, x :: 0 <= i < |es[1..]| && x in done + [es[0]] ==> x.name != es[1..][i].name
  {
    var rest := es[1..];
    forall i | 0 <= i < |rest| ensures FitEntry(rest[i]) && rest[i].name != es[0].name { assert rest[i] == es[i + 1]; }
    forall i, j | 0 <= i < j < |rest| ensures rest[i].name != rest[j].name {
      assert rest[i] == es[i + 1] && rest[j] == es[j + 1];
    }
    forall i, x | 0 <= i < |rest| && x in done + [es[0]] ensures x.name != rest[i].name {
      assert rest[i] == es[i + 1];
    }
  }

  // ---------------------------------------------------------------- and nothing else does

  lemma {:induction false} MergedValues(es: seq<Entry>, n: string, t: D2Type, vs: seq<string>)
    requires IndexOf(es, Removed(n)).Some? && AppendValues(es, n, t, vs).Some?
    ensures |AppendValues(es, n, t, vs).value| == |es|
    decreases |vs|
  {
    if vs != [] {
      var i := IndexOf(es, Removed(n)).value;
      var es1 := AppendAttr(es, n, t, vs[0]).value;
      assert es1[i].name == Removed(n) && es1[i] in es1;
      MergedValues(es1, n, t, vs[1..]);
    }
  }

  /** One attribute adds at most one entry, and then at the end of the table. */
  lemma OneEntry(es: seq<Entry>, a: Attr)
    requires ToDap2Attr(es, a).Some?
    ensures var r := ToDap2Attr(es, a).value;
      && |es| <= |r| <= |es| + 1
      && (|r| == |es| + 1 ==>
            && es <= r && r[|es|].name == Removed(a.name)
            && (a.Leaf? ==> a.values != [] && IndexOf(es, Removed(a.name)) == None && r[|es|].Values?)
            && (a.Container? ==>
                  IndexOf(es, a.name) == None && ToDap2([], a.attrs).Some?
                  && r[|es|] == Table(Removed(a.name), ToDap2([], a.attrs).value)))
  {
    match a
    case Container(_, _) =>
    case Leaf(n, t, vs) =>
      var t2 := StringType(TypeString(ToDap2Type(t).value));
      if vs == [] {
      } else if IndexOf(es, Removed(n)).Some? {
        MergedValues(es, n, t2, vs);
      } else {
        NewValues(es, n, t2, vs);
      }
  }

  lemma {:induction false} EntriesCount(es: seq<Entry>, attrs: seq<Attr>)
    requires ToDap2(es, attrs).Some?
    ensures var r := ToDap2(es, attrs).value; |r| <= |es| + |attrs| && (|r| == |es| + |attrs| ==> es <= r)
    decreases |attrs|
  {
    if attrs != [] {
      OneEntry(es, attrs[0]);
      EntriesCount(ToDap2Attr(es, attrs[0]).value, attrs[1..]);
    }
  }

  lemma {:induction false} ToDap4Size(es: seq<Entry>)
    requires ToDap4(es).Some?
    ensures |ToDap4(es).value| == |es|
    decreases |es|
  {
    if es != [] { ToDap4Size(es[1..]); }
  }

  lemma {:induction false} EntryMustFit(done: seq<Entry>, e: Entry)
    requires ToDap4Entry(e).Some? && ToDap2Attr(done, ToDap4Entry(e).value) == Some(done + [e])
    ensures FitEntry(e) && forall x :: x in done ==> x.name != e.name
    decreases e, 0
  {
    var a := ToDap4Entry(e).value;
    OneEntry(done, a);
    assert (done + [e])[|done|] == e && a.name == e.name;
    RemovedHasNoCode(e.name);
    match e
    case Values(_, t, _) =>
    case Table(_, es) =>
      assert ToDap2([], a.attrs) == Some(es);
      assert [] + es == es;
      EntriesMustFit([], es);
  }

  lemma {:induction false} EntriesMustFit(done: seq<Entry>, es: seq<Entry>)
    requires ToDap4(es).Some? && ToDap2(done, ToDap4(es).value) == Some(done + es)
    ensures Fit(es) && forall i, x :: 0 <= i < |es| && x in done ==> x.name != es[i].name
    decreases es, 1
  {
    if es != [] {
      FirstMustCount(done, es);
      hide Fit, FitEntry, ToDap4, ToDap2, ToDap2Attr, ToDap4Entry;
      EntryMustFit(done, es[0]);
      EntriesMustFit(done + [es[0]], es[1..]);
      FitCons(es, done);
    }
  }

  /** For the table to come out at its full length, the first entry has to give one. */
  lemma FirstMustCount(done: seq<Entry>, es: seq<Entry>)
    requires es != [] && ToDap4(es).Some? && ToDap2(done, ToDap4(es).value) == Some(done + es)
    ensures ToDap4Entry(es[0]).Some? && ToDap2Attr(done, ToDap4Entry(es[0]).value) == Some(done + [es[0]])
    ensures ToDap4(es[1..]).Some?
    ensures ToDap2(done + [es[0]], ToDap4(es[1..]).value) == Some((done + [es[0]]) + es[1..])
  {
    HeadAndTail(done, es);
    hide ToDap2, ToDap4, ToDap2Attr, ToDap4Entry;
    var a, more := ToDap4Entry(es[0]).value, ToDap4(es[1..]).value;
    var next := ToDap2Attr(done, a).value;
    ToDap4Size(es[1..]);
    OneEntry(done, a);
    EntriesCount(next, more);
    OneLonger(done, es, next);
  }

  lemma OneLonger(done: seq<Entry>, es: seq<Entry>, next: seq<Entry>)
    requires es != [] && |next| == |done| + 1 && next <= done + es
    ensures next == done + [es[0]] && next + es[1..] == done + es
  {
    assert next == (done + es)[..|done| + 1];
  }

  lemma HeadAndTail(done: seq<Entry>, es: seq<Entry>)
    requires es != [] && ToDap4(es).Some? && ToDap2(done, ToDap4(es).value).Some?
    ensures ToDap4Entry(es[0]).Some? && ToDap4(es[1..]).Some?
    ensures var next := ToDap2Attr(done, ToDap4Entry(es[0]).value);
      next.Some? && ToDap2(done, ToDap4(es).value) == ToDap2(next.value, ToDap4(es[1..]).value)
  {
    hide ToDap4Entry, ToDap2Attr;
    OneByOne(done, es);
  }

  lemma FitCons(es: seq<Entry>, done: seq<Entry>)
    requires es != [] && FitEntry(es[0]) && Fit(es[1..]) && forall x :: x in done ==> x.name != es[0].name
    requires forall i, x :: 0 <= i < |es[1..]| && x in done + [es[0]] ==> x.name != es[1..][i].name
    ensures Fit(es) && forall i, x :: 0 <= i < |es| && x in done ==> x.name != es[i].name
  {
    forall i | 0 <= i < |es|
      ensures FitEntry(es[i]) && forall x :: x in done ==> x.name != es[i].name
        ensures i > 0 ==> es[0].name != es[i].name {
      if i > 0 {
        assert es[i] == es[1..][i - 1] && es[0] in done + [es[0]];
        forall x | x in done ensures x.name != es[i].name { assert x in done + [es[0]]; }
      }
    }
    forall i, j | 0 <= i < j < |es| ensures es[i].name != es[j].name {
      if i > 0 { assert es[i] == es[1..][i - 1] && es[j] == es[1..][j - 1]; }
    }
  }

  /** A DAP2 table comes back from DAP4 as it was, with all names, types, nesting and values in
      order, exactly when at every depth its names are free of "%20" and different from each
      other, its types are known, and no attribute is without values. */
  lemma ThereAndBackExact(es: seq<Entry>)
    ensures ThereAndBack(es) == Some(es) <==> Fit(es)
  {
    assert [] + es == es;
    if Fit(es) { EntriesReturn([], es); }
    if ThereAndBack(es) == Some(es) { EntriesMustFit([], es); }
  }

  // ---------------------------------------------------------------- containers of one name

  /** All names are stored decoded. */
  ghost predicate Decoded(es: seq<Entry>) { forall e :: e in es ==> NoCode(e.name) }

  ghost predicate NamesDiffer(es: seq<Entry>) { forall i, j :: 0 <= i < j < |es| ==> es[i].name != es[j].name }

  lemma IndexOfSome(es: seq<Entry>, n: string)
    ensures IndexOf(es, n).Some? <==> exists e :: e in es && e.name == n
  {
  }

  /** A container that has been added is refused the second time exactly when its name has no
      "%20": the table is searched for the name as it is, but keeps it decoded. */
  lemma SecondContainer(es: seq<Entry>, n: string, a: seq<Entry>, b: seq<Entry>)
    requires AppendContainer(es, n, a).Some?
    ensures AppendContainer(AppendContainer(es, n, a).value, n, b).None? <==> NoCode(n)
  {
    var more := AppendContainer(es, n, a).value;
    IndexOfSome(es, n);
    IndexOfSome(more, n);
    assert more[|es|] in more;
    RemovedHasNoCode(n);
    if NoCode(n) { RemovedNothing(n); }
  }

  /** The exception comes for exactly the names that are taken, unless the name has a "%20"
      and is taken in its decoded form; and only then two entries come to share a name. */
  lemma RefusedExactly(es: seq<Entry>, n: string, sub: seq<Entry>)
    requires Decoded(es) && NamesDiffer(es)
    ensures (AppendContainer(es, n, sub).None? <==> IndexOf(es, Removed(n)).Some?)
      <==> NoCode(n) || IndexOf(es, Removed(n)).None?
    ensures AppendContainer(es, n, sub).Some? ==>
      var more := AppendContainer(es, n, sub).value;
      Decoded(more) && (NamesDiffer(more) <==> NoCode(n) || IndexOf(es, Removed(n)).None?)
  {
    IndexOfSome(es, n);
    IndexOfSome(es, Removed(n));
    RemovedHasNoCode(n);
    if NoCode(n) { RemovedNothing(n); }
    if AppendContainer(es, n, sub).Some? {
      var more := AppendContainer(es, n, sub).value;
      if IndexOf(es, Removed(n)).Some? {
        assert more[IndexOf(es, Removed(n)).value].name == more[|es|].name;
      }
    }
  }

  /** Decoded names, and only a container comes under a name that is taken. */
  ghost predicate Stored(es: seq<Entry>) {
    Decoded(es) && forall i, j :: 0 <= i < j < |es| && es[i].name == es[j].name ==> es[j].Table?
  }

  lemma {:induction false} ValuesStored(es: seq<Entry>, name: string, typ: D2Type, vs: seq<string>)
    requires Stored(es) && AppendValues(es, name, typ, vs).Some?
    ensures Stored(AppendValues(es, name, typ, vs).value)
    decreases |vs|
  {
    if vs != [] {
      RemovedHasNoCode(name);
      ValuesStored(AppendAttr(es, name, typ, vs[0]).value, name, typ, vs[1..]);
    }
  }

  /** What transform_attrs_to_dap2 makes: names are decoded, and shared at most by a container
      with what came before it. */
  lemma {:induction false} AllStored(es: seq<Entry>, attrs: seq<Attr>)
    requires Stored(es) && ToDap2(es, attrs).Some?
    ensures Stored(ToDap2(es, attrs).value)
    decreases |attrs|
  {
    if attrs != [] {
      match attrs[0] {
        case Container(n, _) => RemovedHasNoCode(n);
        case Leaf(n, t, vs) => ValuesStored(es, n, StringType(TypeString(ToDap2Type(t).value)), vs);
      }
      AllStored(ToDap2Attr(es, attrs[0]).value, attrs[1..]);
    }
  }

  /** Two containers "a b", both added as "a%20b". */
  lemma CodedNameTwice()
    ensures AppendContainer([], "a%20b", []) == Some([Table("a b", [])])
    ensures AppendContainer([Table("a b", [])], "a%20b", []) == Some([Table("a b", []), Table("a b", [])])
  {
    var ab := "a%20b";
    assert ab[1..] == "%20b" && "%20b"[3..] == "b";
    assert CodeAt("%20b", 0) && !CodeAt(ab, 0);
    assert Removed("%20b") == " b";
    assert Removed(ab) == "a b";
    assert "a b"[1] != ab[1];
    var t: Entry, none: seq<Entry> := Table("a b", []), [];
    assert none + [t] == [t] && [t] + [t] == [t, t];
    assert [t][1..] == none && IndexOf(none, ab) == None && IndexOf([t], ab) == None;
  }

  // ---------------------------------------------------------------- when the translation throws

  /** What a table shows of an entry: its name, and the name of its type unless it is a
      container. */
  datatype Head = Head(name: string, typ: Option<string>)

  function HeadOf(e: Entry): Head {
    match e
    case Values(n, t, _) => Head(n, Some(TypeString(t)))
    case Table(n, _) => Head(n, None)
  }

  function Heads(es: seq<Entry>): seq<Head> {
    seq(|es|, i requires 0 <= i < |es| => HeadOf(es[i]))
  }

  /** The first entry of this name. */
  function FirstHead(hs: seq<Head>, name: string): Option<Head> {
    if hs == [] then None else if hs[0].name == name then Some(hs[0]) else FirstHead(hs[1..], name)
  }

  /** An attribute can go into a table: DAP2 has its type, and a leaf with values meets, as the
      first entry of its decoded name, none or a leaf of that type; a container's name, as it
      is, is not taken, and its own attributes can go into an empty table. */
  predicate TakesOne(hs: seq<Head>, a: Attr)
    decreases a, 1
  {
    match a
    case Leaf(n, t, vs) =>
      && t !in NOT_IN_DAP2
      && (vs != [] ==> var h := FirstHead(hs, Removed(n)); h.Some? ==> h.value.typ == Some(NameInDap2(t)))
    case Container(n, attrs) => FirstHead(hs, n).None? && Takes([], attrs)
  }

  /** The heads once the attribute is in. */
  function WithHead(hs: seq<Head>, a: Attr): seq<Head> {
    match a
    case Leaf(n, t, vs) =>
      if vs == [] || FirstHead(hs, Removed(n)).Some? then hs else hs + [Head(Removed(n), Some(NameInDap2(t)))]
    case Container(n, _) => hs + [Head(Removed(n), None)]
  }

  predicate Takes(hs: seq<Head>, attrs: seq<Attr>)
    decreases attrs, 0
  {
    attrs == [] || (TakesOne(hs, attrs[0]) && Takes(WithHead(hs, attrs[0]), attrs[1..]))
  }

  function AllHeads(hs: seq<Head>, attrs: seq<Attr>): seq<Head>
    decreases |attrs|
  {
    if attrs == [] then hs else AllHeads(WithHead(hs, attrs[0]), attrs[1..])
  }

  lemma {:induction false} FirstHeadIs(es: seq<Entry>, name: string)
    ensures FirstHead(Heads(es), name)
      == match IndexOf(es, name) case None => None case Some(i) => Some(HeadOf(es[i]))
    decreases |es|
  {
    if es != [] {
      assert Heads(es)[1..] == Heads(es[1..]);
      FirstHeadIs(es[1..], name);
    }
  }

  lemma HeadsSnoc(es: seq<Entry>, e: Entry)
    ensures Heads(es + [e]) == Heads(es) + [HeadOf(e)]
  {
  }

  /** More values for an attribute that is there. */
  lemma {:induction false} MoreValuesFit(es: seq<Entry>, n: string, t: D2Type, vs: seq<string>, i: nat)
    requires IndexOf(es, Removed(n)) == Some(i) && vs != []
    ensures var r := AppendValues(es, n, t, vs);
      && (r.Some? <==> es[i].Values? && es[i].typ == t)
      && (r.Some? ==> r.value == es[i := Values(es[i].name, t, es[i].values + vs)])
    decreases |vs|
  {
    if es[i].Values? && es[i].typ == t {
      var es1 := es[i := Values(es[i].name, t, es[i].values + [vs[0]])];
      FirstIndex(es, es1, Removed(n));
      if |vs| == 1 {
        assert vs == [vs[0]] && vs[1..] == [];
      } else {
        MoreValuesFit(es1, n, t, vs[1..], i);
        assert es[i].values + [vs[0]] + vs[1..] == es[i].values + vs;
      }
    }
  }

  /** A list of values is taken at once as its values are one by one: refused for a container or
      another type, added behind the values that are there, and otherwise a new attribute. */
  lemma ListAtOnce(es: seq<Entry>, n: string, t: D2Type, vs: seq<string>)
    requires vs != []
    ensures AppendAttrs(es, n, t, vs) == AppendValues(es, n, t, vs)
  {
    match IndexOf(es, Removed(n))
    case None => NewValues(es, n, t, vs);
    case Some(i) =>
      MoreValuesFit(es, n, t, vs, i);
      if es[i].Values? && es[i].typ == t {
        assert es[i].(values := es[i].values + vs) == Values(es[i].name, t, es[i].values + vs);
      }
  }

  /** Names decide where an entry is found. */
  lemma {:induction false} FirstIndex(a: seq<Entry>, b: seq<Entry>, name: string)
    requires |a| == |b| && forall i :: 0 <= i < |a| ==> a[i].name == b[i].name
    ensures IndexOf(a, name) == IndexOf(b, name)
    decreases |a|
  {
    if a != [] { FirstIndex(a[1..], b[1..], name); }
  }

  lemma {:induction false} TakesOneExact(es: seq<Entry>, a: Attr)
    ensures var r := ToDap2Attr(es, a);
      && (r.Some? <==> TakesOne(Heads(es), a))
      && (r.Some? ==> Heads(r.value) == WithHead(Heads(es), a))
    decreases a, 1
  {
    match a
    case Leaf(n, t, vs) =>
      TypeInDap2(t);
      if ToDap2Type(t).Some? && vs != [] {
        var t2 := ToDap2Type(t).value;
        TypeNamesReturn(t2);
        FirstHeadIs(es, Removed(n));
        match IndexOf(es, Removed(n)) {
          case None =>
            IndexOfSome(es, Removed(n));
            NewValues(es, n, t2, vs);
            HeadsSnoc(es, Values(Removed(n), t2, vs));
          case Some(i) =>
            if es[i].Values? { SameTypeName(es[i].typ, t2); }
            MoreValuesFit(es, n, t2, vs, i);
            if es[i].Values? && es[i].typ == t2 {
              assert Heads(es[i := Values(es[i].name, t2, es[i].values + vs)]) == Heads(es);
            }
        }
      }
    case Container(n, attrs) =>
      TakesExact([], attrs);
      assert Heads([]) == [];
      FirstHeadIs(es, n);
      if ToDap2([], attrs).Some? { HeadsSnoc(es, Table(Removed(n), ToDap2([], attrs).value)); }
  }

  /** transform_attrs_to_dap2 throws exactly when an attribute cannot go into the table as the
      earlier ones have left it; what the table shows then depends on names and types alone. */
  lemma {:induction false} TakesExact(es: seq<Entry>, attrs: seq<Attr>)
    ensures var r := ToDap2(es, attrs);
      && (r.Some? <==> Takes(Heads(es), attrs))
      && (r.Some? ==> Heads(r.value) == AllHeads(Heads(es), attrs))
    decreases attrs, 0
  {
    if attrs != [] {
      TakesOneExact(es, attrs[0]);
      hide ToDap2Attr, TakesOne, WithHead, Heads;
      if ToDap2Attr(es, attrs[0]).Some? { TakesExact(ToDap2Attr(es, attrs[0]).value, attrs[1..]); }
    }
  }

  // ---------------------------------------------------------------- the loops

  /** AttrTable as an object that is appended to. */
  class AttrTable {
    var entries: seq<Entry>

    constructor ()
      ensures entries == []
    {
      entries := [];
    }

    /** append_attr; false stands for the exception. */
    method AppendOne(name: string, typ: string, value: string) returns (ok: bool)
      modifies this
      ensures match AppendAttr(old(entries), name, StringType(typ), value)
        case None => !ok
        case Some(es) => ok && entries == es
    {
      var n := RemoveSpaceEncoding(name);
      var i := IndexOf(entries, n);
      if i.None? {
        entries := entries + [Values(n, StringType(typ), [value])];
        return true;
      }
      var e := entries[i.value];
      if e.Table? || e.typ != StringType(typ) { return false; }
      entries := entries[i.value := e.(values := e.values + [value])];
      return true;
    }

    /** append_attr with a list of values. */
    method AppendList(name: string, typ: string, vs: seq<string>) returns (ok: bool)
      modifies this
      ensures match AppendAttrs(old(entries), name, StringType(typ), vs)
        case None => !ok
        case Some(es) => ok && entries == es
    {
      var n := RemoveSpaceEncoding(name);
      var i := IndexOf(entries, n);
      if i.None? {
        entries := entries + [Values(n, StringType(typ), vs)];
        return true;
      }
      var e := entries[i.value];
      if e.Table? || e.typ != StringType(typ) { return false; }
      entries := entries[i.value := e.(values := e.values + vs)];
      return true;
    }

    /** append_container. */
    method AppendTable(name: string, sub: AttrTable) returns (ok: bool)
      modifies this
      ensures match AppendContainer(old(entries), name, old(sub.entries))
        case None => !ok
        case Some(es) => ok && entries == es
      ensures ok <==> forall e :: e in old(entries) ==> e.name != name
    {
      var n := RemoveSpaceEncoding(name);
      if IndexOf(entries, name).Some? { return false; }
      entries := entries + [Table(n, sub.entries)];
      return true;
    }

    /** D4Attributes::transform_attrs_to_dap2 into this table. */
    method Load(attrs: seq<Attr>) returns (ok: bool)
      modifies this
      ensures match ToDap2(old(entries), attrs)
        case None => !ok
        case Some(es) => ok && entries == es
      decreases attrs, 0
    {
      var i := 0;
      assert attrs[0..] == attrs;
      while i < |attrs|
        invariant 0 <= i <= |attrs| && ToDap2(entries, attrs[i..]) == ToDap2(old(entries), attrs)
      {
        assert attrs[i..][0] == attrs[i] && attrs[i..][1..] == attrs[i + 1..];
        ok := LoadOne(attrs[i]);
        if !ok { return; }
        i := i + 1;
      }
      assert attrs[i..] == [];
      ok := true;
    }

    method LoadOne(a: Attr) returns (ok: bool)
      modifies this
      ensures match ToDap2Attr(old(entries), a)
        case None => !ok
        case Some(es) => ok && entries == es
      decreases a, 1
    {
      var t := ToDap2Type(if a.Container? then ContainerA else a.typ);
      if t.None? { return false; }
      if a.Container? {
        var child := new AttrTable();
        ok := child.Load(a.attrs);
        if !ok { return; }
        ok := AppendTable(a.name, child);
      } else {
        var vs, i := a.values, 0;
        assert vs[0..] == vs;
        while i < |vs|
          invariant 0 <= i <= |vs|
          invariant AppendValues(entries, a.name, StringType(TypeString(t.value)), vs[i..])
            == AppendValues(old(entries), a.name, StringType(TypeString(t.value)), vs)
        {
          assert vs[i..][0] == vs[i] && vs[i..][1..] == vs[i + 1..];
          ok := AppendOne(a.name, TypeString(t.value), vs[i]);
          if !ok { return; }
          i := i + 1;
        }
        assert vs[i..] == [];
        ok := true;
      }
    }
  }

  function Before(done: seq<Attr>, r: Option<seq<Attr>>): Option<seq<Attr>> {
    match r case None => None case Some(rest) => Some(done + rest)
  }

  lemma BeforeNothing(r: Option<seq<Attr>>)
    ensures Before([], r) == r
  {
    if r.Some? { assert [] + r.value == r.value; }
  }

  lemma BeforeSnoc(done: seq<Attr>, a: Attr, r: Option<seq<Attr>>)
    ensures Before(done + [a], r) == Before(done, Before([a], r))
  {
    if r.Some? { assert done + [a] + r.value == done + ([a] + r.value); }
  }

  /** D4Attributes::transform_to_dap4. */
  method TransformToDap4(es: seq<Entry>) returns (attrs: Option<seq<Attr>>)
    ensures attrs == ToDap4(es)
    decreases es
  {
    var done: seq<Attr>, i := [], 0;
    assert es[0..] == es;
    BeforeNothing(ToDap4(es));
    while i < |es|
      invariant 0 <= i <= |es| && ToDap4(es) == Before(done, ToDap4(es[i..]))
    {
      assert es[i..][0] == es[i] && es[i..][1..] == es[i + 1..];
      if ToDap4Entry(es[i]).Some? { BeforeSnoc(done, ToDap4Entry(es[i]).value, ToDap4(es[i + 1..])); }
      match es[i] {
        case Table(n, sub) =>
          var inner := TransformToDap4(sub);
          if inner.None? { return None; }
          done := done + [Container(n, inner.value)];
        case Values(n, t, vs) =>
          var t4 := ToDap4Type(t);
          if t4.None? { return None; }
          done := done + [Leaf(n, t4.value, vs)];
      }
      i := i + 1;
    }
    assert es[i..] == [] && done + [] == done;
    return Some(done);
  }
}
