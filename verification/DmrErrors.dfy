/** What the DMR reader refuses: start tags that do not belong where they stand or lack what they
    need, and why no document with one of them is ever accepted. */
module DmrErrors {
  import opened Wrappers
  import opened Text
  import opened DmrTree
  import opened XmlStream
  import opened D4Heap
  import opened D4Parser
  import opened StreamNoise
  import opened DmrRoundTrip

  // ---------------------------------------------------------------- errors last

  /** Somewhere on the state stack there is an error. */
  predicate Broken(s: Stack<ParseState>) {
    s.Push? && (s.top in {ParserError, ParserFatalError} || Broken(s.rest))
  }

  lemma {:induction false} GrownBroken(a: Stack<ParseState>, b: Stack<ParseState>)
    requires Grown(a, b) && Broken(a)
    ensures Broken(b)
  {
    if b != a { GrownBroken(a, b.rest); }
  }

  lemma StartBroken(p: Reader, uri: string, name: string, xa: XmlAttrs)
    requires Broken(p.s) && !p.stopped
    ensures Broken(Start(p, uri, name, xa).s)
  {
    hide Start;
    StartGrown(p, uri, name, xa);
    if Grown(p.s, Start(p, uri, name, xa).s) { GrownBroken(p.s, Start(p, uri, name, xa).s); }
  }

  lemma EndAtError(p: Reader, uri: string, name: string)
    requires !p.stopped && p.s.Push? && p.s.top in {ParserError, ParserFatalError}
    ensures End(p, uri, name) == p
  {
  }

  lemma EndBroken(p: Reader, uri: string, name: string)
    requires Broken(p.s) && !p.stopped
    ensures var q := End(p, uri, name); q.stopped || Broken(q.s)
  {
    hide End;
    if p.s.top in {ParserError, ParserFatalError} {
      EndAtError(p, uri, name);
    } else {
      EndShrinks(p, uri, name);
    }
  }

  /** Once there is an error on the stack, it stays there whatever follows. */
  lemma {:induction false} ErrorsLast(p: Reader, ns: seq<Node>)
    requires p.stopped || Broken(p.s)
    ensures var q := RunNodes(p, ns); q.stopped || Broken(q.s)
    decreases ns
  {
    hide Start, End;
    if p.stopped {
      StoppedStays(p, ns);
    } else if ns != [] {
      match ns[0] {
        case Text(x) => assert RunNode(p, ns[0]).s == p.s;
        case Elem(u, l, xa, kids) =>
          var q := Start(p, u, l, xa);
          StartBroken(p, u, l, xa);
          ErrorsLast(q, kids);
          var r := RunNodes(q, kids);
          if r.stopped { EndStopped(r, u, l); } else { EndBroken(r, u, l); }
      }
      ErrorsLast(RunNode(p, ns[0]), ns[1..]);
    }
  }

  /** A reader that has met an error does not come to the end with a DMR. */
  lemma NeverAccepted(p: Reader, ns: seq<Node>, d: Dmr)
    requires p.stopped || Broken(p.s)
    ensures !ReadsAs(EndDocument(RunNodes(p, ns)), d)
  {
    ErrorsLast(p, ns);
    var q := RunNodes(p, ns);
    assert q.stopped || EndDocument(q).stopped || Broken(EndDocument(q).s);
  }

  // ---------------------------------------------------------------- which tags are errors

  predicate VariableTag(name: string) {
    name in {"Byte", "Char", "Int8", "UInt8", "Int16", "UInt16", "Int32", "UInt32", "Int64", "UInt64", "Float32",
             "Float64", "String", "Url", "URL", "Enum", "Opaque", "Structure", "Sequence"}
  }

  predicate IntegerName(name: string) {
    name in {"Byte", "Char", "Int8", "UInt8", "Int16", "UInt16", "Int32", "UInt32", "Int64", "UInt64"}
  }

  lemma TagTypes(name: string)
    ensures IsSimpleType(GetType(name)) || GetType(name) in {StructureT, SequenceT} <==> VariableTag(name)
    ensures IsIntegerType(GetType(name)) <==> IntegerName(name)
    ensures GetType(name) == EnumT <==> name == "Enum"
    ensures VariableTag(name) ==> name !in {"Enumeration", "Dimension", "Group", "Attribute", "Dim", "Map"}
  {
  }

  /** A variable has a name, and an Enum also an enumeration. */
  predicate VariableSound(name: string, xa: XmlAttrs) {
    VariableTag(name) && "name" in xa && (name == "Enum" ==> "enum" in xa)
  }

  predicate AttributeSound(name: string, xa: XmlAttrs) { name == "Attribute" && "name" in xa && "type" in xa }

  /** A start tag that a group takes. */
  predicate GroupTag(name: string, xa: XmlAttrs) {
    || (name == "Enumeration" && "name" in xa && "basetype" in xa && IntegerName(xa["basetype"]))
    || (name == "Dimension" && "name" in xa && "size" in xa && ReadUnsigned(xa["size"]).Some?)
    || (name == "Group" && "name" in xa)
    || VariableSound(name, xa) || AttributeSound(name, xa)
  }

  /** A Dim has a size or a name, but not both. */
  predicate DimSound(name: string, xa: XmlAttrs) { name == "Dim" && ("size" in xa <==> "name" !in xa) }

  lemma DefinitionErrors(p: Reader, name: string, xa: XmlAttrs)
    requires !Broken(p.s)
    ensures var (q, ok) := ProcessEnumDef(p, name, xa);
      && (ok <==> name == "Enumeration" && "name" in xa && "basetype" in xa && IntegerName(xa["basetype"]))
      && q.heap == p.heap && (name == "Enumeration" || q == p) && (ok ==> q.s == p.s)
    ensures var (q, ok) := ProcessDimensionDef(p, name, xa);
      && (ok <==> name == "Dimension" && "name" in xa && "size" in xa && ReadUnsigned(xa["size"]).Some?)
      && q.heap == p.heap && (name == "Dimension" || q == p) && (ok ==> q.s == p.s)
    ensures var (q, ok) := ProcessGroup(p, name, xa);
      && (ok <==> name == "Group" && "name" in xa)
      && (!ok ==> q.heap == p.heap) && (name == "Group" || q == p) && (ok ==> q.s == p.s)
  {
    hide ReadUnsigned, GetType;
    if "basetype" in xa { TagTypes(xa["basetype"]); }
  }

  lemma VariableErrors(p: Reader, name: string, xa: XmlAttrs)
    requires !Broken(p.s) && !p.stopped
    ensures var (q, ok) := ProcessVariable(p, name, xa);
      && (ok <==> VariableTag(name)) && (!ok ==> q == p)
      && (ok ==> q.stopped || (Broken(q.s) <==> !VariableSound(name, xa)))
      && ("name" !in xa ==> q.heap == p.heap)
  {
    TagTypes(name);
    hide GetType, LookupEnum;
  }

  lemma AttributeErrors(p: Reader, name: string, xa: XmlAttrs)
    requires !Broken(p.s) && !p.stopped
    ensures var (q, ok) := ProcessAttribute(p, name, xa);
      && (ok <==> AttributeSound(name, xa)) && (name == "Attribute" || q == p)
      && (ok ==> q.stopped || !Broken(q.s)) && (!ok ==> q.heap == p.heap && !q.stopped)
  {
  }

  lemma DimErrors(p: Reader, name: string, xa: XmlAttrs)
    requires !Broken(p.s) && !p.stopped
    ensures var (q, ok) := ProcessDimension(p, name, xa);
      && (ok <==> DimSound(name, xa)) && (name == "Dim" || q == p)
      && (ok ==> q.stopped || q.s == p.s) && (!ok ==> q.heap == p.heap && !q.stopped)
  {
    hide LookupDim, MakeArray, Atoi;
  }

  /** Between the tags of a group, or of the data set, a start tag is an error exactly when it is
      not one of those that a group takes. */
  lemma GroupTagExact(p: Reader, name: string, xa: XmlAttrs)
    requires !p.stopped && p.s.Push? && p.s.top in {InsideDataset, InsideGroup} && !Broken(p.s)
    ensures var q := Start(p, DAP4_NS, name, xa);
      q.stopped || (Broken(q.s) <==> !GroupTag(name, xa))
  {
    TagTypes(name);
    DefinitionErrors(p, name, xa);
    VariableErrors(p, name, xa);
    AttributeErrors(p, name, xa);
    hide ProcessEnumDef, ProcessDimensionDef, ProcessGroup, ProcessVariable, ProcessAttribute, VariableTag, IntegerName,
      ReadUnsigned;
    assert Start(p, DAP4_NS, name, xa) == StartInGroup(p, name, xa);
  }

  /** Inside a simple variable, exactly attributes and extents are taken; Map is not part of this
      model. */
  lemma SimpleTagExact(p: Reader, name: string, xa: XmlAttrs)
    requires !p.stopped && p.s.Push? && p.s.top == InsideSimpleType && !Broken(p.s) && name != "Map"
    ensures var q := Start(p, DAP4_NS, name, xa);
      q.stopped || (Broken(q.s) <==> !AttributeSound(name, xa) && !DimSound(name, xa))
  {
    AttributeErrors(p, name, xa);
    DimErrors(p, name, xa);
    hide ProcessDimension, ProcessAttribute;
    assert Start(p, DAP4_NS, name, xa) == StartInVariable(p, name, xa);
  }

  /** Inside a structure or a sequence, members are taken besides. */
  lemma ConstructorTagExact(p: Reader, name: string, xa: XmlAttrs)
    requires !p.stopped && p.s.Push? && p.s.top == InsideConstructor && !Broken(p.s) && name != "Map"
    ensures var q := Start(p, DAP4_NS, name, xa);
      q.stopped || (Broken(q.s) <==> !VariableSound(name, xa) && !AttributeSound(name, xa) && !DimSound(name, xa))
  {
    TagTypes(name);
    VariableErrors(p, name, xa);
    AttributeErrors(p, name, xa);
    DimErrors(p, name, xa);
    hide ProcessDimension, ProcessAttribute, ProcessVariable, VariableTag;
  }

  /** Elsewhere: a data set begins with Dataset, an enumeration holds constants that fit, a
      container attributes, and an attribute values or further attributes. */
  lemma OtherTagExact(p: Reader, name: string, xa: XmlAttrs)
    requires !p.stopped && p.s.Push? && !Broken(p.s)
    ensures var q := Start(p, DAP4_NS, name, xa);
      && (p.s.top == ParserStart ==> (Broken(q.s) <==> !(name == "Dataset" && "name" in xa)))
      && (p.s.top == InsideAttributeContainer ==> q.stopped || (Broken(q.s) <==> !AttributeSound(name, xa)))
      && (p.s.top == InsideAttribute ==>
            q.stopped || (Broken(q.s) <==> !AttributeSound(name, xa) && name != "Value"))
      && (p.s.top == InsideEnumDef && p.enumDef.Some? ==>
            (Broken(q.s) <==> !(name == "EnumConst" && "name" in xa && "value" in xa
                                && ReadSigned(xa["value"]).Some?
                                && IsValidEnumValue(p.enumDef.value.basetype, ReadSigned(xa["value"]).value))))
  {
    AttributeErrors(p, name, xa);
    hide ProcessAttribute, ReadSigned, IsValidEnumValue;
    assert "Value"[0] != "Attribute"[0];
  }
}
