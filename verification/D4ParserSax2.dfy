/** The DMR reader as the object libxml2 calls back: its fields, its stack helpers and its
    callbacks, each proved to make the step of D4Parser. */
module D4ParserSax2 {
  import opened Wrappers
  import opened Text
  import opened DmrTree
  import opened XmlStream
  import opened D4Heap
  import P = D4Parser
  import D = DmrDocument
  import R = DmrRoundTrip
  import opened DmrRep
  import StreamNoise

  type ParseState = P.ParseState

  class DmrReader {
    var states: Stack<ParseState>
    var btps: Stack<Id>
    var grps: Stack<Id>
    var atts: Stack<Id>
    var heap: Heap
    var enumDef: Option<EnumDef>
    var dimDef: Option<DimDef>
    var attrName: string
    var attrType: string
    var charData: string
    var dmrName: string
    var stopped: bool

    /** The fields as one value. */
    function Snapshot(): P.Reader
      reads this
    {
      P.Reader(states, btps, grps, atts, heap, enumDef, dimDef, attrName, attrType, charData, dmrName, stopped)
    }

    constructor ()
      ensures Snapshot() == P.NEW_READER
    {
      states, btps, grps, atts := Push(P.ParserStart, Empty), Empty, Empty, Empty;
      heap := NEW_HEAP;
      enumDef, dimDef := None, None;
      attrName, attrType, charData, dmrName := "", "", "", "";
      stopped := false;
    }

    // -------------------------------------------------------------- stacks

    method PushState(st: ParseState)
      modifies `states
      ensures Snapshot() == P.Enter(old(Snapshot()), st)
    {
      states := Push(st, states);
    }

    method PopState()
      modifies `states, `stopped
      ensures Snapshot() == P.PopState(old(Snapshot()))
    {
      if states.Empty? { stopped := true; } else { states := states.rest; }
    }

    method PushErrorUnless(ok: bool)
      modifies `states
      ensures Snapshot() == P.ErrUnless(old(Snapshot()), ok)
    {
      if !ok { PushState(P.ParserError); }
    }

    // -------------------------------------------------------------- actions of start tags

    method ProcessDimensionDef(name: string, xa: XmlAttrs) returns (ok: bool)
      modifies this
      ensures (Snapshot(), ok) == P.ProcessDimensionDef(old(Snapshot()), name, xa)
    {
      if name != "Dimension" { return false; }
      ok := "name" in xa && "size" in xa;
      if ok {
        var n := ReadUnsigned(xa["size"]);
        ok := n.Some?;
        var size := if ok then n.value else if dimDef.Some? then dimDef.value.size else 0;
        dimDef := Some(DimDef(xa["name"], size));
      } else {
        PushState(P.ParserError);
      }
      PushErrorUnless(ok);
    }

    method ProcessGroup(name: string, xa: XmlAttrs) returns (ok: bool)
      modifies this
      ensures (Snapshot(), ok) == P.ProcessGroup(old(Snapshot()), name, xa)
    {
      ok := name == "Group" && "name" in xa;
      if name != "Group" {
      } else if !ok {
        states := Push(P.ParserError, Push(P.ParserError, states));
      } else if grps.Empty? || grps.top >= |heap.groups| {
        stopped := true;
      } else {
        var up, g, t := grps.top, |heap.groups|, |heap.tables|;
        heap := WithGroup(heap, up, heap.groups[up].(groups := heap.groups[up].groups + [g]));
        heap := heap.(groups := heap.groups + [GroupObj(xa["name"], Some(up), [], [], [], [], t)],
                      tables := heap.tables + [[]]);
        grps, atts := Push(g, grps), Push(t, atts);
      }
    }

    method ProcessAttribute(name: string, xa: XmlAttrs) returns (ok: bool)
      modifies this
      ensures (Snapshot(), ok) == P.ProcessAttribute(old(Snapshot()), name, xa)
    {
      ok := name == "Attribute" && "name" in xa && "type" in xa;
      if name != "Attribute" {
      } else if !ok {
        states := Push(P.ParserError, Push(P.ParserError, states));
      } else if xa["type"] == "OtherXML" || (xa["type"] == "Container" && (atts.Empty? || atts.top >= |heap.tables|)) {
        stopped := true;
      } else if xa["type"] == "Container" {
        PushState(P.InsideAttributeContainer);
        var t, c := atts.top, |heap.tables|;
        heap := WithTable(heap, t, heap.tables[t] + [AttrObj(xa["name"], ContainerA, [], Some(c))]);
        heap := heap.(tables := heap.tables + [[]]);
        atts := Push(c, atts);
      } else {
        PushState(P.InsideAttribute);
        attrName, attrType := xa["name"], xa["type"];
      }
    }

    method ProcessEnumDef(name: string, xa: XmlAttrs) returns (ok: bool)
      modifies this
      ensures (Snapshot(), ok) == P.ProcessEnumDef(old(Snapshot()), name, xa)
    {
      if name != "Enumeration" { return false; }
      ok := "name" in xa && "basetype" in xa;
      if ok {
        var t := GetType(xa["basetype"]);
        ok := IsIntegerType(t);
        if ok { enumDef := Some(EnumDef(xa["name"], t, if enumDef.Some? then enumDef.value.consts else [])); }
      } else {
        PushState(P.ParserError);
      }
      PushErrorUnless(ok);
    }

    method ProcessEnumConst(name: string, xa: XmlAttrs) returns (ok: bool)
      modifies this
      ensures (Snapshot(), ok) == P.ProcessEnumConst(old(Snapshot()), name, xa)
    {
      if name != "EnumConst" { return false; }
      ok := "name" in xa && "value" in xa;
      var v := if ok then ReadSigned(xa["value"]) else None;
      if v.None? {
        PushErrorUnless(ok);
        PushState(P.ParserError);
        return;
      }
      var e := if enumDef.Some? then enumDef.value else EnumDef("", NullT, []);
      var valid := IsValidEnumValue(e.basetype, v.value);
      enumDef := Some(if valid then e.(consts := e.consts + [EnumConst(xa["name"], v.value)]) else e);
      PushErrorUnless(valid);
    }

    method AddVariable(t: Type, name: string, e: Option<DefRef>, st: ParseState)
      modifies this
      ensures Snapshot() == P.AddVariable(old(Snapshot()), t, name, e, st)
    {
      btps, atts := Push(|heap.vars|, btps), Push(|heap.tables|, atts);
      heap := heap.(vars := heap.vars + [P.NewObject(t, name, e, |heap.tables|)], tables := heap.tables + [[]]);
      PushState(st);
    }

    method NewVariable(t: Type, st: ParseState, xa: XmlAttrs)
      modifies this
      ensures Snapshot() == P.NewVariable(old(Snapshot()), t, st, xa)
    {
      hide P.LookupEnum, P.AddVariable;
      if "name" !in xa {
        PushState(P.ParserError);
        return;
      }
      var found := if t == EnumT && "enum" in xa then P.LookupEnum(Snapshot(), xa["enum"]) else NotFound;
      if t == EnumT && "enum" in xa && !found.Found? {
        stopped := true;
        return;
      }
      PushErrorUnless(t == EnumT ==> "enum" in xa);
      AddVariable(t, xa["name"], if found.Found? then Some(found.ref) else None, st);
    }

    method ProcessVariable(name: string, xa: XmlAttrs) returns (ok: bool)
      modifies this
      ensures (Snapshot(), ok) == P.ProcessVariable(old(Snapshot()), name, xa)
    {
      var t := GetType(name);
      ok := IsSimpleType(t) || t == StructureT || t == SequenceT;
      if ok { NewVariable(t, if IsSimpleType(t) then P.InsideSimpleType else P.InsideConstructor, xa); }
    }

    method ProcessDimension(name: string, xa: XmlAttrs) returns (ok: bool)
      modifies this
      ensures (Snapshot(), ok) == P.ProcessDimension(old(Snapshot()), name, xa)
    {
      if name != "Dim" { return false; }
      ok := !("size" in xa <==> "name" in xa);
      if !ok {
        PushState(P.ParserError);
        return;
      }
      stopped := stopped || btps.Empty? || btps.top >= |heap.vars|;
      if btps.Empty? || btps.top >= |heap.vars| { return; }
      if !heap.vars[btps.top].ArrayObj? {
        var a := |heap.vars|;
        heap := MakeArray(heap, btps.top);
        btps := Push(a, btps.rest);
      }
      var found := if "name" in xa then P.LookupDim(Snapshot(), xa["name"]) else NotFound;
      if "name" in xa && !found.Found? {
        stopped := true;
        return;
      }
      var d := if "name" in xa then Shared(found.ref) else Local(Atoi(xa["size"]), "");
      var arr := heap.vars[btps.top];
      heap := WithVar(heap, btps.top, arr.(dims := arr.dims + [d]));
    }

    // -------------------------------------------------------------- start tags

    method StartDocument()
      modifies this
      ensures Snapshot() == P.StartDocument(old(Snapshot()))
    {
      if heap.groups == [] {
        stopped := true;
      } else {
        charData := "";
        atts := Push(heap.groups[ROOT].attrs, atts);
      }
    }

    method StartInGroup(name: string, xa: XmlAttrs)
      modifies this
      ensures Snapshot() == P.StartInGroup(old(Snapshot()), name, xa)
    {
      hide P.ProcessEnumDef, P.ProcessDimensionDef, P.ProcessGroup, P.ProcessVariable, P.ProcessAttribute;
      var ok := ProcessEnumDef(name, xa);
      if ok {
        PushState(P.InsideEnumDef);
        return;
      }
      ok := ProcessDimensionDef(name, xa);
      if ok {
        PushState(P.InsideDimDef);
        return;
      }
      ok := ProcessGroup(name, xa);
      if ok {
        PushState(P.InsideGroup);
        return;
      }
      ok := ProcessVariable(name, xa);
      if ok { return; }
      ok := ProcessAttribute(name, xa);
      PushErrorUnless(ok);
    }

    method StartInVariable(name: string, xa: XmlAttrs)
      modifies this
      ensures Snapshot() == P.StartInVariable(old(Snapshot()), name, xa)
    {
      hide P.ProcessAttribute, P.ProcessDimension;
      var ok := ProcessAttribute(name, xa);
      if ok { return; }
      ok := ProcessDimension(name, xa);
      if ok {
        PushState(P.InsideDim);
      } else if name == "Map" {
        stopped := true;
      } else {
        PushState(P.ParserError);
      }
    }

    method StartElement(uri: string, name: string, xa: XmlAttrs)
      modifies this
      ensures Snapshot() == P.Start(old(Snapshot()), uri, name, xa)
    {
      hide P.ProcessAttribute, P.ProcessEnumConst, P.ProcessVariable, P.StartInGroup, P.StartInVariable;
      if stopped || states.Empty? {
        stopped := true;
        return;
      }
      if states.top != P.ParserError && uri != DAP4_NS { PushState(P.NotDap4Element); }
      match states.top
      case ParserStart =>
        PushErrorUnless(name == "Dataset");
        if "name" in xa { dmrName := xa["name"]; } else { PushState(P.ParserError); }
        grps := Push(ROOT, grps);
        PushState(P.InsideDataset);
      case InsideDataset => StartInGroup(name, xa);
      case InsideGroup => StartInGroup(name, xa);
      case InsideAttributeContainer =>
        var ok := ProcessAttribute(name, xa);
        PushErrorUnless(ok);
      case InsideAttribute =>
        var ok := ProcessAttribute(name, xa);
        if !ok { PushState(if name == "Value" then P.InsideAttributeValue else P.ParserError); }
      case InsideEnumDef =>
        var ok := ProcessEnumConst(name, xa);
        PushState(if ok then P.InsideEnumConst else P.ParserError);
      case InsideSimpleType => StartInVariable(name, xa);
      case InsideConstructor =>
        var ok := ProcessVariable(name, xa);
        if !ok { StartInVariable(name, xa); }
      case ParserUnknown => PushState(P.ParserUnknown);
      case _ =>
    }

    method Characters(x: string)
      modifies this
      ensures Snapshot() == P.Chars(old(Snapshot()), x)
    {
      stopped := stopped || states.Empty?;
      if !stopped && states.top == P.InsideAttributeValue { charData := charData + x; }
    }

    // -------------------------------------------------------------- end tags

    method EndValue()
      modifies this
      ensures Snapshot() == P.EndValue(old(Snapshot()))
    {
      if atts.Empty? || atts.top >= |heap.tables| {
        stopped := true;
        return;
      }
      var at := GetAttr(heap.tables, atts.top, attrName);
      if at.Some? {
        var (table, i) := at.value;
        var o := heap.tables[table][i];
        heap := WithTable(heap, table, heap.tables[table][i := o.(values := o.values + [charData])]);
      } else {
        var o := AttrObj(attrName, AttrTypeOf(attrType), [charData], None);
        heap := WithTable(heap, atts.top, heap.tables[atts.top] + [o]);
      }
      charData := "";
    }

    method EndVariable(simple: bool)
      modifies this
      ensures Snapshot() == P.EndVariable(old(Snapshot()), simple)
    {
      if btps.Empty? || atts.Empty? {
        stopped := true;
        return;
      }
      var v := btps.top;
      btps, atts := btps.rest, atts.rest;
      if btps.Empty? && grps.Empty? { return; }
      var into := if btps.Push? then InVar(btps.top) else InGroup(grps.top);
      if simple && ValidParent(heap, into) && into.InVar? && heap.vars[into.v].ArrayObj? {
        into := InVar(heap.vars[into.v].proto);
      }
      var added := if ValidParent(heap, into) then AddVar(heap, into, v) else None;
      if added.None? {
        stopped := true;
      } else {
        heap := added.value;
        PopState();
      }
    }

    method AddEnumDef()
      modifies this
      ensures Snapshot() == P.AddEnumDef(old(Snapshot()))
    {
      if grps.Empty? || grps.top >= |heap.groups| {
        stopped := true;
        return;
      }
      var o := heap.groups[grps.top];
      var e := if enumDef.Some? then enumDef.value else EnumDef("", NullT, []);
      heap := WithGroup(heap, grps.top, o.(enums := o.enums + [e]));
      enumDef := None;
      PopState();
    }

    method AddDimDef()
      modifies this
      ensures Snapshot() == P.AddDimDef(old(Snapshot()))
    {
      if grps.Empty? || grps.top >= |heap.groups| {
        stopped := true;
        return;
      }
      var o := heap.groups[grps.top];
      var d := if dimDef.Some? then dimDef.value else DimDef("", 0);
      heap := WithGroup(heap, grps.top, o.(dims := o.dims + [d]));
      dimDef := None;
      PopState();
    }

    method EndElement(uri: string, name: string)
      modifies this
      ensures Snapshot() == P.End(old(Snapshot()), uri, name)
    {
      hide P.EndValue, P.EndVariable, P.AddEnumDef, P.AddDimDef;
      if stopped || states.Empty? {
        stopped := true;
        return;
      }
      match states.top
      case ParserStart => PushState(P.ParserFatalError);
      case InsideDataset =>
        PushErrorUnless(name == "Dataset");
        PopState();
        if states.Empty? {
          stopped := true;
        } else {
          states :=
            if states.top == P.ParserStart then Push(P.ParserEnd, states.rest)
            else Push(P.ParserFatalError, states);
        }
      case InsideGroup =>
        PushErrorUnless(name == "Group");
        PushErrorUnless(btps.Empty? && grps.Push?);
        if grps.Empty? {
          stopped := true;
        } else {
          grps := grps.rest;
          PopState();
        }
      case InsideAttributeContainer =>
        PushErrorUnless(name == "Attribute");
        PopState();
        if atts.Empty? { stopped := true; } else { atts := atts.rest; }
      case InsideAttribute =>
        PushErrorUnless(name == "Attribute");
        PopState();
      case InsideAttributeValue =>
        PushErrorUnless(name == "Value");
        PopState();
        EndValue();
      case InsideEnumDef =>
        PushErrorUnless(name == "Enumeration");
        AddEnumDef();
      case InsideEnumConst =>
        PushErrorUnless(name == "EnumConst");
        PopState();
      case InsideDimDef =>
        PushErrorUnless(name == "Dimension");
        AddDimDef();
      case InsideSimpleType =>
        if IsSimpleType(GetType(name)) { EndVariable(true); }
      case InsideDim =>
        if name == "Dim" { PopState(); }
      case InsideConstructor =>
        if name == "Structure" || name == "Sequence" { EndVariable(false); } else { PushState(P.ParserError); }
      case NotDap4Element => PopState();
      case ParserUnknown => PopState();
      case _ =>
    }

    method EndDocument()
      modifies this
      ensures Snapshot() == P.EndDocument(old(Snapshot()))
    {
      if stopped || states.Empty? {
        stopped := true;
        return;
      }
      PushErrorUnless(states.top == P.ParserEnd);
      if states.top == P.ParserError || states.top == P.ParserFatalError { return; }
      PushErrorUnless(btps.Empty? && grps.Push?);
      if grps.Empty? || atts.Empty? {
        stopped := true;
      } else {
        grps, atts := grps.rest, atts.rest;
      }
    }

    // -------------------------------------------------------------- a whole document

    /** intern(): the callbacks of one document, in the order libxml2 makes them. */
    method Intern(events: seq<Event>)
      requires Snapshot() == P.NEW_READER
      modifies this
      ensures Snapshot() == R.ReadStream(events)
    {
      StartDocument();
      var i := 0;
      while i < |events|
        invariant 0 <= i <= |events|
        invariant P.Run(Snapshot(), events[i..]) == P.Run(P.StartDocument(P.NEW_READER), events)
      {
        assert events[i..][0] == events[i] && events[i..][1..] == events[i + 1..];
        match events[i] {
          case StartElement(u, l, xa) => StartElement(u, l, xa);
          case Characters(x) => Characters(x);
          case EndElement(u, l) => EndElement(u, l);
        }
        i := i + 1;
      }
      assert events[i..] == [];
      EndDocument();
    }

    /** Reading any document that differs from a printed DMR only in what the reader ignores
        builds that DMR. */
    method InternDmr(ghost d: Dmr, ghost n: Node, doc: seq<Node>)
      requires Snapshot() == P.NEW_READER
      requires D.Describes(n, d) && StreamNoise.Strip(doc, false) == StreamNoise.Strip([n], false)
      modifies this
      ensures !stopped && states == Push(P.ParserEnd, Empty) && btps.Empty? && grps.Empty?
      ensures dmrName == d.name && GroupRep(heap, ROOT, d.root, 0, 0, 0)
      ensures Depth(atts) == D.CountGroups(d.root.groups)
    {
      R.ReadsDescribed(n, d, doc);
      Intern(Flatten(doc));
    }
  }
}
