/** What each SAX callback of the DMR reader does to the reader, as functions from state to
    state.  The class in D4ParserSax2.dfy is proved to follow them. */
module D4Parser {
  import opened Wrappers
  import opened Text
  import opened DmrTree
  import opened XmlStream
  import opened D4Heap

  datatype ParseState =
    | ParserStart | InsideDataset | InsideGroup
    | InsideAttributeContainer | InsideAttribute | InsideAttributeValue
    | InsideEnumDef | InsideEnumConst | InsideDimDef
    | InsideSimpleType | InsideDim | InsideConstructor
    | NotDap4Element | ParserUnknown | ParserError | ParserFatalError | ParserEnd

  /** The fields of the reader.  `stopped` says that the parse has left the callbacks: an
      exception was thrown, an empty stack was popped, a null pointer was followed, or the
      document used OtherXML or Map, which this model does not cover. */
  datatype Reader = Reader(
    s: Stack<ParseState>,
    btps: Stack<Id>,
    grps: Stack<Id>,
    atts: Stack<Id>,
    heap: Heap,
    enumDef: Option<EnumDef>,
    dimDef: Option<DimDef>,
    attrName: string,
    attrType: string,
    charData: string,
    dmrName: string,
    stopped: bool)

  /** The reader as intern() hands it to libxml2, with a fresh DMR to fill. */
  const NEW_READER: Reader :=
    Reader(Push(ParserStart, Empty), Empty, Empty, Empty, NEW_HEAP, None, None, "", "", "", "", false)

  function Enter(p: Reader, st: ParseState): Reader { p.(s := Push(st, p.s)) }

  function Err(p: Reader): Reader { Enter(p, ParserError) }

  function Fatal(p: Reader): Reader { Enter(p, ParserFatalError) }

  function Stop(p: Reader): Reader { p.(stopped := true) }

  function PopState(p: Reader): Reader {
    if p.s.Empty? then Stop(p) else p.(s := p.s.rest)
  }

  function PopAtts(p: Reader): Reader {
    if p.atts.Empty? then Stop(p) else p.(atts := p.atts.rest)
  }

  /** The variable stack wins over the group stack. */
  function CurrentParent(p: Reader): Option<Parent> {
    if p.btps.Push? then Some(InVar(p.btps.top))
    else if p.grps.Push? then Some(InGroup(p.grps.top))
    else None
  }

  /** check_required_attribute on two names, the second only if the first is there. */
  function Require2(p: Reader, xa: XmlAttrs, a: string, b: string): (Reader, bool) {
    if a in xa && b in xa then (p, true) else (Err(p), false)
  }

  // ---------------------------------------------------------------- actions

  function ProcessDimensionDef(p: Reader, name: string, xa: XmlAttrs): (Reader, bool) {
    if name != "Dimension" then (p, false)
    else
      var (p1, ok) := Require2(p, xa, "name", "size");
      if !ok then (Err(p1), false)
      else
        var prior := if p.dimDef.Some? then p.dimDef.value.size else 0;
        var p2 := p1.(dimDef := Some(DimDef(xa["name"], prior)));
        match ReadUnsigned(xa["size"])
        case None => (Err(p2), false)
        case Some(n) => (p2.(dimDef := Some(DimDef(xa["name"], n))), true)
  }

  function ProcessGroup(p: Reader, name: string, xa: XmlAttrs): (Reader, bool) {
    if name != "Group" then (p, false)
    else if "name" !in xa then (Err(Err(p)), false)
    else if p.grps.Empty? || p.grps.top >= |p.heap.groups| then (Stop(p), true)
    else
      var h := p.heap;
      var up := p.grps.top;
      var g := |h.groups|;
      var t := |h.tables|;
      var h1 := WithGroup(h, up, h.groups[up].(groups := h.groups[up].groups + [g]));
      var h2 := h1.(groups := h1.groups + [GroupObj(xa["name"], Some(up), [], [], [], [], t)],
                    tables := h1.tables + [[]]);
      (p.(heap := h2, grps := Push(g, p.grps), atts := Push(t, p.atts)), true)
  }

  function ProcessAttribute(p: Reader, name: string, xa: XmlAttrs): (Reader, bool) {
    if name != "Attribute" then (p, false)
    else
      var (p1, ok) := Require2(p, xa, "name", "type");
      if !ok then (Err(p1), false)
      else if xa["type"] == "Container" then
        if p.atts.Empty? || p.atts.top >= |p.heap.tables| then (Stop(p), true)
        else
          var h := p.heap;
          var t := p.atts.top;
          var c := |h.tables|;
          var h1 := WithTable(h, t, h.tables[t] + [AttrObj(xa["name"], ContainerA, [], Some(c))]);
          (Enter(p, InsideAttributeContainer).(heap := h1.(tables := h1.tables + [[]]),
                                               atts := Push(c, p.atts)), true)
      else if xa["type"] == "OtherXML" then (Stop(p), true)
      else (Enter(p, InsideAttribute).(attrName := xa["name"], attrType := xa["type"]), true)
  }

  function ProcessEnumDef(p: Reader, name: string, xa: XmlAttrs): (Reader, bool) {
    if name != "Enumeration" then (p, false)
    else
      var (p1, ok) := Require2(p, xa, "name", "basetype");
      if !ok then (Err(p1), false)
      else
        var t := GetType(xa["basetype"]);
        if !IsIntegerType(t) then (Err(p), false)
        else
          var prior := if p.enumDef.Some? then p.enumDef.value.consts else [];
          (p.(enumDef := Some(EnumDef(xa["name"], t, prior))), true)
  }

  function ProcessEnumConst(p: Reader, name: string, xa: XmlAttrs): (Reader, bool) {
    if name != "EnumConst" then (p, false)
    else
      var (p1, ok) := Require2(p, xa, "name", "value");
      if !ok then (Err(p1), false)
      else
        var e := if p.enumDef.Some? then p.enumDef.value else EnumDef("", NullT, []);
        match ReadSigned(xa["value"])
        case None => (Err(p), true)
        case Some(v) =>
          var p2 := p.(enumDef := Some(e));
          if !IsValidEnumValue(e.basetype, v) then (Err(p2), true)
          else (p2.(enumDef := Some(e.(consts := e.consts + [EnumConst(xa["name"], v)]))), true)
  }

  /** The Enumeration an Enum variable names: a path from the root starts with a slash. */
  function LookupEnum(p: Reader, path: string): Lookup {
    if path != [] && path[0] == '/' then FindEnumDef(p.heap.groups, ROOT, path)
    else if p.grps.Empty? then Throws
    else FindEnumDef(p.heap.groups, p.grps.top, path)
  }

  function LookupDim(p: Reader, path: string): Lookup {
    if path != [] && path[0] == '/' then FindDim(p.heap.groups, ROOT, path)
    else if p.grps.Empty? then Throws
    else FindDim(p.heap.groups, p.grps.top, path)
  }

  function NewObject(t: Type, name: string, e: Option<DefRef>, table: Id): VarObj {
    if t == StructureT || t == SequenceT then CtorObj(t == SequenceT, name, [], Some(table))
    else SimpleObj(t, name, e, Some(table))
  }

  /** A new variable with its own attribute table, made current. */
  function AddVariable(p: Reader, t: Type, name: string, e: Option<DefRef>, st: ParseState): Reader {
    var h := p.heap;
    Enter(p.(heap := h.(vars := h.vars + [NewObject(t, name, e, |h.tables|)], tables := h.tables + [[]]),
             btps := Push(|h.vars|, p.btps),
             atts := Push(|h.tables|, p.atts)), st)
  }

  /** process_variable_helper: an Enum without its enum attribute is an error but goes on;
      one whose definition is missing follows a null pointer. */
  function NewVariable(p: Reader, t: Type, st: ParseState, xa: XmlAttrs): Reader {
    if "name" !in xa then Err(p)
    else
      var wantsEnum := t == EnumT && "enum" in xa;
      var found := if wantsEnum then LookupEnum(p, xa["enum"]) else NotFound;
      if wantsEnum && !found.Found? then Stop(p)
      else
        var p1 := if t == EnumT && "enum" !in xa then Err(p) else p;
        AddVariable(p1, t, xa["name"], if found.Found? then Some(found.ref) else None, st)
  }

  function ProcessVariable(p: Reader, name: string, xa: XmlAttrs): (Reader, bool) {
    var t := GetType(name);
    if IsSimpleType(t) then (NewVariable(p, t, InsideSimpleType, xa), true)
    else if t == StructureT || t == SequenceT then (NewVariable(p, t, InsideConstructor, xa), true)
    else (p, false)
  }

  /** process_dimension: makes the current variable an array if it is not one yet, then
      appends an extent given by number or by the path of a shared dimension. */
  function ProcessDimension(p: Reader, name: string, xa: XmlAttrs): (Reader, bool) {
    if name != "Dim" then (p, false)
    else if "size" in xa && "name" in xa then (Err(p), false)
    else if "size" !in xa && "name" !in xa then (Err(p), false)
    else if p.btps.Empty? || p.btps.top >= |p.heap.vars| then (Stop(p), true)
    else
      var b := p.btps.top;
      var p1 :=
        if p.heap.vars[b].ArrayObj? then p
        else p.(heap := MakeArray(p.heap, b), btps := Push(|p.heap.vars|, p.btps.rest));
      var a := p1.btps.top;
      if "size" in xa then (AppendDim(p1, a, Local(Atoi(xa["size"]), "")), true)
      else
        match LookupDim(p1, xa["name"])
        case Found(r) => (AppendDim(p1, a, Shared(r)), true)
        case _ => (Stop(p1), true)
  }

  function AppendDim(p: Reader, a: Id, d: DimObj): Reader
    requires a < |p.heap.vars| && p.heap.vars[a].ArrayObj?
  {
    p.(heap := WithVar(p.heap, a, p.heap.vars[a].(dims := p.heap.vars[a].dims + [d])))
  }

  // ---------------------------------------------------------------- callbacks

  function StartDocument(p: Reader): Reader {
    if p.heap.groups == [] then Stop(p)
    else p.(charData := "", atts := Push(p.heap.groups[ROOT].attrs, p.atts))
  }

  function StartDataset(p: Reader, name: string, xa: XmlAttrs): Reader {
    var p1 := if name != "Dataset" then Err(p) else p;
    var p2 := if "name" in xa then p1.(dmrName := xa["name"]) else Err(p1);
    Enter(p2.(grps := Push(ROOT, p2.grps)), InsideDataset)
  }

  function StartInGroup(p: Reader, name: string, xa: XmlAttrs): Reader {
    var (p1, isEnum) := ProcessEnumDef(p, name, xa);
    if isEnum then Enter(p1, InsideEnumDef)
    else
      var (p2, isDim) := ProcessDimensionDef(p1, name, xa);
      if isDim then Enter(p2, InsideDimDef)
      else
        var (p3, isGroup) := ProcessGroup(p2, name, xa);
        if isGroup then Enter(p3, InsideGroup)
        else
          var (p4, isVar) := ProcessVariable(p3, name, xa);
          if isVar then p4
          else
            var (p5, isAttr) := ProcessAttribute(p4, name, xa);
            if isAttr then p5 else Err(p5)
  }

  function StartInVariable(p: Reader, name: string, xa: XmlAttrs): Reader {
    var (p1, isAttr) := ProcessAttribute(p, name, xa);
    if isAttr then p1
    else
      var (p2, isDim) := ProcessDimension(p1, name, xa);
      if isDim then Enter(p2, InsideDim)
      else if name == "Map" then Stop(p2)
      else Err(p2)
  }

  /** dmr_start_element. */
  function Start(p: Reader, uri: string, name: string, xa: XmlAttrs): Reader {
    if p.stopped || p.s.Empty? then Stop(p)
    else
      var q := if p.s.top != ParserError && uri != DAP4_NS then Enter(p, NotDap4Element) else p;
      match q.s.top
      case ParserStart => StartDataset(q, name, xa)
      case InsideDataset => StartInGroup(q, name, xa)
      case InsideGroup => StartInGroup(q, name, xa)
      case InsideAttributeContainer =>
        (var (q1, ok) := ProcessAttribute(q, name, xa); if ok then q1 else Err(q1))
      case InsideAttribute =>
        (var (q1, ok) := ProcessAttribute(q, name, xa);
         if ok then q1
         else if name == "Value" then Enter(q1, InsideAttributeValue)
         else Err(q1))
      case InsideEnumDef =>
        (var (q1, ok) := ProcessEnumConst(q, name, xa);
         if ok then Enter(q1, InsideEnumConst) else Err(q1))
      case InsideSimpleType => StartInVariable(q, name, xa)
      case InsideConstructor =>
        (var (q1, ok) := ProcessVariable(q, name, xa);
         if ok then q1 else StartInVariable(q1, name, xa))
      case ParserUnknown => Enter(q, ParserUnknown)
      case _ => q
  }

  /** dmr_get_characters: only the text of a Value is kept. */
  function Chars(p: Reader, x: string): Reader {
    if p.stopped || p.s.Empty? then Stop(p)
    else if p.s.top == InsideAttributeValue then p.(charData := p.charData + x)
    else p
  }

  /** The end of a Value: the text becomes one more value of the attribute that get() finds
      under the current name, or of a new attribute. */
  function EndValue(p: Reader): Reader {
    if p.atts.Empty? || p.atts.top >= |p.heap.tables| then Stop(p)
    else
      var h := p.heap;
      var t := p.atts.top;
      var h1 := match GetAttr(h.tables, t, p.attrName)
        case Some(at) =>
          var o := h.tables[at.0][at.1];
          WithTable(h, at.0, h.tables[at.0][at.1 := o.(values := o.values + [p.charData])])
        case None =>
          WithTable(h, t, h.tables[t] + [AttrObj(p.attrName, AttrTypeOf(p.attrType), [p.charData], None)]);
      p.(heap := h1, charData := "")
  }

  /** The end of a variable: it leaves both stacks and is added to what is now current.  A
      simple variable that ends inside an array goes to the array's prototype. */
  function EndVariable(p: Reader, simple: bool): Reader {
    if p.btps.Empty? || p.atts.Empty? then Stop(p)
    else
      var v := p.btps.top;
      var q := p.(btps := p.btps.rest, atts := p.atts.rest);
      match CurrentParent(q)
      case None => PopState(Fatal(q))
      case Some(parent) =>
        if !ValidParent(q.heap, parent) then Stop(q)
        else
          var into :=
            if simple && parent.InVar? && q.heap.vars[parent.v].ArrayObj? then
              InVar(q.heap.vars[parent.v].proto)
            else parent;
          if !ValidParent(q.heap, into) then Stop(q)
          else match AddVar(q.heap, into, v)
            case None => Stop(q)
            case Some(h) => PopState(q.(heap := h))
  }

  function AddEnumDef(p: Reader): Reader {
    if p.grps.Empty? || p.grps.top >= |p.heap.groups| then Stop(p)
    else
      var g := p.grps.top;
      var e := if p.enumDef.Some? then p.enumDef.value else EnumDef("", NullT, []);
      var o := p.heap.groups[g];
      PopState(p.(heap := WithGroup(p.heap, g, o.(enums := o.enums + [e])), enumDef := None))
  }

  function AddDimDef(p: Reader): Reader {
    if p.grps.Empty? || p.grps.top >= |p.heap.groups| then Stop(p)
    else
      var g := p.grps.top;
      var d := if p.dimDef.Some? then p.dimDef.value else DimDef("", 0);
      var o := p.heap.groups[g];
      PopState(p.(heap := WithGroup(p.heap, g, o.(dims := o.dims + [d])), dimDef := None))
  }

  function ErrUnless(p: Reader, ok: bool): Reader { if ok then p else Err(p) }

  function EndDataset(p: Reader, name: string): Reader {
    var q := PopState(ErrUnless(p, name == "Dataset"));
    if q.stopped || q.s.Empty? then Stop(q)
    else if q.s.top != ParserStart then Fatal(q)
    else Enter(PopState(q), ParserEnd)
  }

  /** The end of a Group pops the group and the state; the attribute stack is not popped. */
  function EndGroup(p: Reader, name: string): Reader {
    var q := ErrUnless(ErrUnless(p, name == "Group"), p.btps.Empty? && p.grps.Push?);
    if q.grps.Empty? then Stop(q) else PopState(q.(grps := q.grps.rest))
  }

  /** dmr_end_element. */
  function End(p: Reader, uri: string, name: string): Reader {
    if p.stopped || p.s.Empty? then Stop(p)
    else match p.s.top
      case ParserStart => Fatal(p)
      case InsideDataset => EndDataset(p, name)
      case InsideGroup => EndGroup(p, name)
      case InsideAttributeContainer => PopAtts(PopState(ErrUnless(p, name == "Attribute")))
      case InsideAttribute => PopState(ErrUnless(p, name == "Attribute"))
      case InsideAttributeValue => EndValue(PopState(ErrUnless(p, name == "Value")))
      case InsideEnumDef => AddEnumDef(ErrUnless(p, name == "Enumeration"))
      case InsideEnumConst => PopState(ErrUnless(p, name == "EnumConst"))
      case InsideDimDef => AddDimDef(ErrUnless(p, name == "Dimension"))
      case InsideSimpleType =>
        if IsSimpleType(GetType(name)) then EndVariable(p, true) else PopState(Err(p))
      case InsideDim => PopState(if name == "Dim" then p else Fatal(p))
      case InsideConstructor =>
        if name == "Structure" || name == "Sequence" then EndVariable(p, false) else Err(p)
      case NotDap4Element => PopState(p)
      case ParserUnknown => PopState(p)
      case _ => p
  }

  /** dmr_end_document. */
  function EndDocument(p: Reader): Reader {
    if p.stopped || p.s.Empty? then Stop(p)
    else
      var q := ErrUnless(p, p.s.top == ParserEnd);
      if q.s.top == ParserError || q.s.top == ParserFatalError then q
      else
        var r := ErrUnless(q, q.btps.Empty? && q.grps.Push?);
        if r.grps.Empty? || r.atts.Empty? then Stop(r)
        else r.(grps := r.grps.rest, atts := r.atts.rest)
  }

  function Step(p: Reader, e: Event): Reader {
    match e
    case StartElement(u, l, xa) => Start(p, u, l, xa)
    case Characters(x) => Chars(p, x)
    case EndElement(u, l) => End(p, u, l)
  }

  /** The callbacks of a stream of events, in order. */
  function Run(p: Reader, es: seq<Event>): Reader
    decreases |es|
  {
    if es == [] then p else Run(Step(p, es[0]), es[1..])
  }

  /** The same by the structure of the document. */
  function RunNode(p: Reader, n: Node): Reader
    decreases n, 1
  {
    match n
    case Text(x) => Chars(p, x)
    case Elem(u, l, xa, kids) => End(RunNodes(Start(p, u, l, xa), kids), u, l)
  }

  function RunNodes(p: Reader, ns: seq<Node>): Reader
    decreases ns, 0
  {
    if ns == [] then p else RunNodes(RunNode(p, ns[0]), ns[1..])
  }

  lemma {:induction false} RunConcat(p: Reader, a: seq<Event>, b: seq<Event>)
    ensures Run(p, a + b) == Run(Run(p, a), b)
    decreases |a|
  {
    if a == [] {
      assert a + b == b;
    } else {
      assert (a + b)[0] == a[0] && (a + b)[1..] == a[1..] + b;
      RunConcat(Step(p, a[0]), a[1..], b);
    }
  }

  lemma {:induction false} RunNodesConcat(p: Reader, a: seq<Node>, b: seq<Node>)
    ensures RunNodes(p, a + b) == RunNodes(RunNodes(p, a), b)
    decreases |a|
  {
    if a == [] {
      assert a + b == b;
    } else {
      assert (a + b)[0] == a[0] && (a + b)[1..] == a[1..] + b;
      RunNodesConcat(RunNode(p, a[0]), a[1..], b);
    }
  }

  lemma RunOne(p: Reader, n: Node, rest: seq<Node>)
    ensures RunNodes(p, [n] + rest) == RunNodes(RunNode(p, n), rest)
  {
    assert ([n] + rest)[1..] == rest;
  }

  /** Running the flat stream of a document is running the document. */
  lemma {:induction false} RunFlattenNode(p: Reader, n: Node)
    ensures Run(p, FlattenNode(n)) == RunNode(p, n)
    decreases n, 1
  {
    match n
    case Text(x) =>
      assert Run(Chars(p, x), []) == Chars(p, x);
    case Elem(u, l, xa, kids) =>
      var first, last := [StartElement(u, l, xa)], [EndElement(u, l)];
      RunConcat(p, first + Flatten(kids), last);
      RunConcat(p, first, Flatten(kids));
      RunFlatten(Start(p, u, l, xa), kids);
      var q := RunNodes(Start(p, u, l, xa), kids);
      assert Run(q, last) == Run(End(q, u, l), []);
  }

  lemma {:induction false} RunFlatten(p: Reader, ns: seq<Node>)
    ensures Run(p, Flatten(ns)) == RunNodes(p, ns)
    decreases ns, 0
  {
    if ns != [] {
      RunFlattenNode(p, ns[0]);
      RunConcat(p, FlattenNode(ns[0]), Flatten(ns[1..]));
      RunFlatten(RunNode(p, ns[0]), ns[1..]);
    }
  }
}
