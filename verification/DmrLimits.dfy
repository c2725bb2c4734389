/** Where the round trip ends: exactly which leaves and enumerations survive it. */
module DmrLimits {
  import opened Wrappers
  import opened Text
  import opened DmrTree
  import opened XmlStream
  import opened DmrPrinter
  import opened D4Heap
  import opened D4Parser
  import opened DmrRep
  import opened DmrLookup
  import opened DmrReadAttrs
  import opened DmrReadVars
  import StreamNoise

  // ---------------------------------------------------------------- leaves

  predicate AllNamed(os: seq<AttrObj>, name: string) {
    forall i :: 0 <= i < |os| ==> os[i].name == name && os[i].typ != ContainerA
  }

  lemma {:induction false} NoSuchAttr(os: seq<AttrObj>, name: string, other: string, container: bool)
    requires AllNamed(os, name) && (container || other != name)
    ensures IndexOfAttr(os, other, container) == None
    decreases |os|
  {
    if os != [] { NoSuchAttr(os[1..], name, other, container); }
  }

  /** An awkward name is never found among leaves that bear it. */
  lemma AwkwardMissed(ts: seq<seq<AttrObj>>, t: Id, name: string)
    requires t < |ts| && AllNamed(ts[t], name) && !Plain(name)
    ensures GetAttr(ts, t, name) == None
  {
    var pos := Find(name, '.');
    var part := name[..pos];
    if name != "" {
      assert pos < |name| && |part| < |name|;
      NoSuchAttr(ts[t], name, part, true);
      NoSuchAttr(ts[t], name, part, false);
    }
  }

  function Singles(name: string, typ: AttrType, vs: seq<string>): seq<AttrObj> {
    if vs == [] then [] else [AttrObj(name, typ, [vs[0]], None)] + Singles(name, typ, vs[1..])
  }

  lemma ReadAwkwardValue(p: Reader, v: string, rest: seq<Node>)
    requires Ready(p) && p.s.top == InsideAttribute && p.atts.Push? && p.atts.top < |p.heap.tables|
    requires GetAttr(p.heap.tables, p.atts.top, p.attrName) == None
    ensures RunNodes(p, [Dap("Value", map[], [XmlStream.Text(v)])] + rest) ==
      RunNodes(p.(heap := WithTable(p.heap, p.atts.top, p.heap.tables[p.atts.top]
                                    + [AttrObj(p.attrName, AttrTypeOf(p.attrType), [v], None)])), rest)
  {
    hide Start, End;
    ReadValue(p, v);
    RunOne(p, Dap("Value", map[], [XmlStream.Text(v)]), rest);
  }

  lemma NothingRun(p: Reader)
    ensures RunNodes(p, []) == p
  {
  }

  /** Under an awkward name every value becomes an attribute of its own. */
  lemma {:induction false} ReadAwkwardValues(p: Reader, vs: seq<string>)
    requires Ready(p) && p.s.top == InsideAttribute && p.atts.Push? && p.atts.top < |p.heap.tables|
    requires !Plain(p.attrName) && AttrTypeOf(p.attrType) != ContainerA
    requires AllNamed(p.heap.tables[p.atts.top], p.attrName)
    ensures var t := p.atts.top;
      RunNodes(p, PrintValues(vs)) == p.(heap := WithTable(p.heap, t,
        p.heap.tables[t] + Singles(p.attrName, AttrTypeOf(p.attrType), vs)))
    decreases |vs|
  {
    hide RunNode, Start, End, RunNodes, Plain, AttrTypeOf, GetAttr;
    assert RunNodes(p, []) == p by { NothingRun(p); }
    var t := p.atts.top;
    var os := p.heap.tables[t];
    var typ := AttrTypeOf(p.attrType);
    if vs == [] {
      assert os + [] == os && p.heap.tables[t := os] == p.heap.tables;
    } else {
      AwkwardMissed(p.heap.tables, t, p.attrName);
      var o := AttrObj(p.attrName, typ, [vs[0]], None);
      var p1 := p.(heap := WithTable(p.heap, t, os + [o]));
      ReadAwkwardValue(p, vs[0], PrintValues(vs[1..]));
      ReadAwkwardValues(p1, vs[1..]);
      var all := os + Singles(p.attrName, typ, vs);
      assert os + [o] + Singles(p.attrName, typ, vs[1..]) == all;
      assert p1.heap.tables[t := all] == p.heap.tables[t := all];
    }
  }

  lemma {:induction false} SinglesSize(name: string, typ: AttrType, vs: seq<string>)
    ensures |Singles(name, typ, vs)| == |vs|
    decreases |vs|
  {
    if vs != [] { SinglesSize(name, typ, vs[1..]); }
  }

  /** The table that a leaf printed into an empty table leaves behind. */
  function LeafTable(a: Attr): seq<AttrObj>
    requires a.Leaf?
  {
    var typ := AttrTypeOf(AttrTypeName(a.typ));
    if a.values == [] then []
    else if !Plain(a.name) then Singles(a.name, typ, a.values)
    else [AttrObj(a.name, typ, a.values, None)]
  }

  lemma ReadAnyValues(p: Reader, vs: seq<string>)
    requires Ready(p) && p.s.top == InsideAttribute && p.atts.Push? && p.atts.top < |p.heap.tables|
    requires AttrTypeOf(p.attrType) != ContainerA && p.heap.tables[p.atts.top] == []
    ensures var typ := AttrTypeOf(p.attrType); var os :=
        if vs == [] then [] else if !Plain(p.attrName) then Singles(p.attrName, typ, vs)
        else [AttrObj(p.attrName, typ, vs, None)];
      RunNodes(p, PrintValues(vs)) == p.(heap := WithTable(p.heap, p.atts.top, os))
  {
    hide RunNode, Start, End;
    var t := p.atts.top;
    var typ := AttrTypeOf(p.attrType);
    if !Plain(p.attrName) {
      ReadAwkwardValues(p, vs);
      assert [] + Singles(p.attrName, typ, vs) == Singles(p.attrName, typ, vs);
    } else if vs == [] {
      assert p.heap.tables[t := []] == p.heap.tables;
    } else {
      GetSimple(p.heap.tables, t, p.attrName);
      ReadLeafValues(p, typ, vs);
      var o := AttrObj(p.attrName, typ, vs, None);
      assert [] + [o] == [o];
    }
  }

  lemma LeafLeaves(p: Reader, a: Attr)
    requires AttrHost(p) && a.Leaf? && a.typ !in {ContainerA, OtherXmlA}
    requires p.heap.tables[p.atts.top] == []
    ensures var q := RunNode(p, PrintAttr(a));
      SameBut(p, q) && q.heap == WithTable(p.heap, p.atts.top, LeafTable(a))
  {
    hide RunNode, RunNodes, Start, End, PrintValues, LeafTable;
    var p1 := Enter(p, InsideAttribute).(attrName := a.name, attrType := AttrTypeName(a.typ));
    StartLeaf(p, a);
    LeafValues(p1, a);
    EndLeaf(p1.(heap := WithTable(p.heap, p.atts.top, LeafTable(a))));
    RunAttr(p, a);
  }

  lemma RunAttr(p: Reader, a: Attr)
    requires a.Leaf?
    ensures RunNode(p, PrintAttr(a)) ==
      End(RunNodes(Start(p, DAP4_NS, "Attribute", map["name" := a.name, "type" := AttrTypeName(a.typ)]),
                   PrintValues(a.values)), DAP4_NS, "Attribute")
  {
    hide Start, End, AttrTypeName;
  }

  lemma StartLeaf(p: Reader, a: Attr)
    requires AttrHost(p) && a.Leaf? && a.typ !in {ContainerA, OtherXmlA}
    ensures Start(p, DAP4_NS, "Attribute", map["name" := a.name, "type" := AttrTypeName(a.typ)])
      == Enter(p, InsideAttribute).(attrName := a.name, attrType := AttrTypeName(a.typ))
  {
    StartAttribute(p, map["name" := a.name, "type" := AttrTypeName(a.typ)]);
    AttrTypeNames(a.typ);
    hide Start, AttrTypeName;
  }

  lemma LeafValues(p: Reader, a: Attr)
    requires a.Leaf? && a.typ !in {ContainerA, OtherXmlA}
    requires Ready(p) && p.s.top == InsideAttribute && p.atts.Push? && p.atts.top < |p.heap.tables|
    requires p.attrName == a.name && p.attrType == AttrTypeName(a.typ) && p.heap.tables[p.atts.top] == []
    ensures RunNodes(p, PrintValues(a.values)) == p.(heap := WithTable(p.heap, p.atts.top, LeafTable(a)))
  {
    AttrTypeReads(a.typ);
    hide RunNodes, AttrTypeOf, AttrTypeName, Plain, Singles, PrintValues;
    ReadAnyValues(p, a.values);
  }

  lemma EndLeaf(p: Reader)
    requires !p.stopped && p.s.Push? && p.s.top == InsideAttribute
    ensures End(p, DAP4_NS, "Attribute") == p.(s := p.s.rest)
  {
  }

  lemma LeafTableRight(a: Attr)
    requires a.Leaf? && a.typ !in {ContainerA, OtherXmlA}
    ensures LeafTable(a) == [AttrObj(a.name, a.typ, a.values, None)]
      <==> a.values != [] && a.typ !in {EnumA, OpaqueA} && (|a.values| == 1 || Plain(a.name))
  {
    var typ := AttrTypeOf(AttrTypeName(a.typ));
    AttrTypeReads(a.typ);
    hide AttrTypeOf, AttrTypeName;
    SinglesSize(a.name, typ, a.values);
    if a.values != [] {
      assert Singles(a.name, typ, a.values)[0] == AttrObj(a.name, typ, [a.values[0]], None);
      if |a.values| == 1 {
        assert a.values == [a.values[0]] && Singles(a.name, typ, a.values[1..]) == [];
      }
    }
  }

  lemma LeafTableRep(ts: seq<seq<AttrObj>>, os: seq<AttrObj>, a: Attr, lo: Id)
    requires a.Leaf?
    ensures AttrsRep(ts, os, [a], lo) <==> os == [AttrObj(a.name, a.typ, a.values, None)]
  {
    assert |os| == 1 ==> (AttrsRep(ts, os, [a], lo) <==> AttrRep(ts, os[0], [a][0], lo));
  }

  /** A leaf by itself reads back exactly when it has a value, its type is neither Enum nor
      Opaque, and it has only one value or a name without dots. */
  lemma LeafReadsBack(p: Reader, a: Attr)
    requires AttrHost(p) && a.Leaf? && a.typ !in {ContainerA, OtherXmlA}
    requires p.heap.tables[p.atts.top] == []
    ensures var q := RunNode(p, PrintAttr(a));
      TableRep(q.heap.tables, p.atts.top, [a], 0)
      <==> a.values != [] && a.typ !in {EnumA, OpaqueA} && (|a.values| == 1 || Plain(a.name))
  {
    hide RunNode, AttrTypeOf, Plain, LeafTable, AttrsRep, PrintAttr;
    LeafLeaves(p, a);
    LeafTableRight(a);
    LeafTableRep(RunNode(p, PrintAttr(a)).heap.tables, LeafTable(a), a, p.atts.top + 1);
  }

  // ---------------------------------------------------------------- enumerations

  /** No enumeration has a slash in its name. */
  predicate PlainEnums(gs: seq<GroupObj>) {
    forall g, i :: 0 <= g < |gs| && 0 <= i < |gs[g].enums| ==> Free(gs[g].enums[i].name, '/')
  }

  lemma {:induction false} SlashedEnumMissed(es: seq<EnumDef>, name: string)
    requires !Free(name, '/') && forall i :: 0 <= i < |es| ==> Free(es[i].name, '/')
    ensures IndexOfEnum(es, name) == None
    decreases |es|
  {
    if es != [] { SlashedEnumMissed(es[1..], name); }
  }

  lemma JoinSlashed(path: seq<string>)
    requires |path| >= 2
    ensures !Free(Join(path), '/')
  {
    assert Join(path)[|path[0]|] == '/';
  }

  /** find_enum_def finds nothing below the children of the root. */
  lemma DeepEnumMissed(gs: seq<GroupObj>, path: seq<string>)
    requires RootNamed(gs) && PlainEnums(gs) && |path| >= 3 && GroupName(path[0])
    ensures FindEnumDef(gs, ROOT, Fqn(path)) == NotFound
  {
    FqnFromRoot(gs, path);
    var rest := Join(path[1..]);
    var s := path[0] + "/" + rest;
    assert Join(path) == s;
    FindAppend(path[0], '/', rest);
    assert s[..|path[0]|] == path[0] && s[|path[0]| + 1..] == rest;
    JoinSlashed(path[1..]);
    var c := FindChild(gs, gs[ROOT].groups, path[0]);
    if c.Some? && c.value < |gs| { SlashedEnumMissed(gs[c.value].enums, rest); }
  }

  /** The enumeration of a group resolves by its fully qualified name exactly when the group
      is the root or a child of the root. */
  lemma EnumResolves(gs: seq<GroupObj>, g: Id, path: seq<string>, k: nat)
    requires Placed(gs, g, path) && PlainEnums(gs) && k < |gs[g].enums|
    ensures EnumKnown(gs, path + [gs[g].enums[k].name]) <==> |path| <= 1
  {
    if |path| <= 1 {
      OwnEnumKnown(gs, g, path, k);
    } else {
      var all := path + [gs[g].enums[k].name];
      assert path[0] in path && all[0] == path[0];
      DeepEnumMissed(gs, all);
    }
  }

  lemma {:induction false} WalkOn(gs: seq<GroupObj>, r: Id, path: seq<string>, sub: seq<string>)
    requires Walk(gs, r, path).Some?
    ensures Walk(gs, r, path + sub) == Walk(gs, Walk(gs, r, path).value, sub)
    decreases |path|
  {
    if path == [] {
      assert path + sub == sub;
    } else {
      assert (path + sub)[0] == path[0] && (path + sub)[1..] == path[1..] + sub;
      WalkOn(gs, FindChild(gs, gs[r].groups, path[0]).value, path[1..], sub);
    }
  }

  lemma EnumOfChild(gs: seq<GroupObj>, g: Id, n: string, rest: string)
    requires g < |gs| && GroupName(n)
    ensures FindEnumDef(gs, g, n + "/" + rest) ==
      match FindChild(gs, gs[g].groups, n) case None => NotFound case Some(c) => EnumIn(gs, c, rest)
  {
    var s := n + "/" + rest;
    FindAppend(n, '/', rest);
    assert s[0] == n[0] && s[..|n|] == n && s[|n| + 1..] == rest;
  }

  /** From a group, however deep, an enumeration is found by its relative name exactly when its
      group is that group or one of its children. */
  lemma RelativeEnum(gs: seq<GroupObj>, g: Id, path: seq<string>, h: Id, sub: seq<string>, k: nat)
    requires Placed(gs, g, path) && Placed(gs, h, path + sub) && PlainEnums(gs) && k < |gs[h].enums|
    ensures var n := gs[h].enums[k].name; var r := FindEnumDef(gs, g, Join(sub + [n]));
      r.Found? && EnumRefRep(gs, r.ref, path + sub + [n]) <==> |sub| <= 1
  {
    var n := gs[h].enums[k].name;
    assert Free(n, '/');
    WalkOn(gs, ROOT, path, sub);
    if sub == [] {
      assert path + sub == path && sub + [n] == [n];
      OwnEnum(gs, g, path, k);
    } else {
      assert sub[0] in path + sub;
      JoinSnoc(sub, n);
      EnumOfChild(gs, g, sub[0], Join(sub[1..] + [n]));
      var c := FindChild(gs, gs[g].groups, sub[0]).value;
      if |sub| == 1 {
        assert sub[1..] == [] && sub[1..] + [n] == [n] && Walk(gs, c, []) == Some(c);
        IndexOfEnumFound(gs[h].enums, n, k);
      } else {
        JoinSlashed(sub[1..] + [n]);
        if c < |gs| { SlashedEnumMissed(gs[c].enums, Join(sub[1..] + [n])); }
      }
    }
  }

  /** In a group, a Dim element that names a dimension from the group on does what one does that
      names it in full, and both stop the parse exactly when there is no such dimension. */
  lemma RelativeDimElement(p: Reader, path: seq<string>, names: seq<string>)
    requires DimHost(p) && Placed(p.heap.groups, p.grps.top, path) && Relative(names)
    ensures var here := Dap("Dim", map["name" := Join(names)], []);
      var full := Dap("Dim", map["name" := Fqn(path + names)], []);
      RunNode(p, here) == RunNode(p, full)
      && (RunNode(p, here).stopped <==> !FindDim(p.heap.groups, ROOT, Fqn(path + names)).Found?)
  {
    NoLeadingSlash(names);
    RelativeDim(p.heap.groups, p.grps.top, path, names);
    assert Fqn(path + names)[0] == '/';
    DimNamed(p, Join(names));
    DimNamed(p, Fqn(path + names));
  }

  /** The first extent makes the current variable the prototype of an array, and decodes the name
      of both: it stays as it was exactly when it has no percent sign. */
  lemma ArrayNameDecoded(p: Reader, k: int)
    requires DimHost(p) && !p.heap.vars[p.btps.top].ArrayObj?
    ensures var b, q := p.btps.top, RunNode(p, Dap("Dim", map["size" := ShowInt(k)], []));
      var n := p.heap.vars[b].name;
      && q.btps.Push? && b < |q.heap.vars| && q.btps.top < |q.heap.vars|
      && var o := q.heap.vars[q.btps.top];
      && o.ArrayObj? && o.proto == b && o.dims == [Local(k, "")]
      && o.name == q.heap.vars[b].name == Www2Id(n) && (o.name == n <==> Free(n, '%'))
  {
    hide Www2Id;
    ReadersInvertShow(k);
    var xa := map["size" := ShowInt(k)];
    assert "name" !in xa;
    DimElement(p, xa, PlusDim(p, Local(k, "")));
    Www2IdFixed(p.heap.vars[p.btps.top].name);
  }

  lemma DimNamed(p: Reader, s: string)
    requires DimHost(p)
    ensures var r := FindDim(p.heap.groups, From(p.grps.top, s), s);
      if r.Found? then RunNode(p, Dap("Dim", map["name" := s], [])) == PlusDim(p, Shared(r.ref)) && !p.stopped
      else RunNode(p, Dap("Dim", map["name" := s], [])) == End(Enter(Stop(Arrayed(p)), InsideDim), DAP4_NS, "Dim")
           && RunNode(p, Dap("Dim", map["name" := s], [])).stopped
  {
    var xa := map["name" := s];
    assert "size" !in xa;
    var r := FindDim(p.heap.groups, From(p.grps.top, s), s);
    if r.Found? {
      DimElement(p, xa, PlusDim(p, Shared(r.ref)));
    } else {
      StartDim(p, xa);
      var q := Enter(Stop(Arrayed(p)), InsideDim);
      assert Start(p, DAP4_NS, "Dim", xa) == q && RunNodes(q, []) == q;
    }
  }

  /** A variable that uses an enumeration from further down stops the parse. */
  lemma DeepEnumStops(p: Reader, parent: Parent, v: Var)
    requires VarHost(p, parent) && RootNamed(p.heap.groups) && PlainEnums(p.heap.groups)
    requires v.Simple? && v.typ == EnumT && v.name != ""
    requires |v.enumPath| >= 3 && GroupName(v.enumPath[0])
    ensures RunNode(p, PrintVar(v)).stopped
  {
    hide FindEnumDef;
    VarTagType(v);
    StartVariable(p, VarTag(v), VarXattrs(v));
    DeepEnumMissed(p.heap.groups, v.enumPath);
    assert Fqn(v.enumPath)[0] == '/' && VarXattrs(v)["enum"] == Fqn(v.enumPath);
    var p1 := Start(p, DAP4_NS, VarTag(v), VarXattrs(v));
    assert p1.stopped;
    StreamNoise.StoppedStays(p1, PrintVar(v).children);
  }

  // ---------------------------------------------------------------- enumeration constants

  /** Once the reader is in the error state, nothing that follows changes it. */
  lemma {:induction false} ErrorSticks(p: Reader, ns: seq<Node>)
    requires !p.stopped && p.s.Push? && p.s.top == ParserError
    ensures RunNodes(p, ns) == p
    decreases ns
  {
    if ns != [] {
      match ns[0] {
        case Text(x) => assert RunNode(p, ns[0]) == Chars(p, x) == p;
        case Elem(u, l, xa, kids) =>
          assert Start(p, u, l, xa) == p;
          ErrorSticks(p, kids);
          assert End(p, u, l) == p;
      }
      ErrorSticks(p, ns[1..]);
    }
  }

  /** A constant of an enumeration is taken exactly when its number is an int64_t that fits the
      type; otherwise the reader is in the error state for good, and holds what it held. */
  lemma EnumConstExact(p: Reader, e: EnumDef, c: EnumConst, rest: seq<Node>)
    requires !p.stopped && p.s.Push? && p.s.top == InsideEnumDef && p.enumDef == Some(e)
    ensures var fits := -TWO_TO_63 <= c.value < TWO_TO_63 && IsValidEnumValue(e.basetype, c.value);
      RunNodes(p, [PrintConst(c)] + rest) ==
        if fits then RunNodes(p.(enumDef := Some(e.(consts := e.consts + [c]))), rest) else Err(p)
  {
    hide ReadSigned, ShowInt, IsValidEnumValue;
    ReadersInvertShow(c.value);
    ReadsOnly(c.value);
    RunOne(p, PrintConst(c), rest);
    var xa := map["name" := c.tag, "value" := ShowInt(c.value)];
    var fits := -TWO_TO_63 <= c.value < TWO_TO_63 && IsValidEnumValue(e.basetype, c.value);
    var q := if fits then p.(enumDef := Some(e.(consts := e.consts + [c]))) else Err(p);
    assert Start(p, DAP4_NS, "EnumConst", xa) == Enter(q, InsideEnumConst);
    assert RunNodes(Enter(q, InsideEnumConst), []) == Enter(q, InsideEnumConst);
    assert End(Enter(q, InsideEnumConst), DAP4_NS, "EnumConst") == q;
    if !fits { ErrorSticks(q, rest); }
  }

  lemma ReadsOnly(i: int)
    ensures ReadSigned(ShowInt(i)).Some? ==> ReadSigned(ShowInt(i)) == Some(i)
  {
    ShowIntScans(i);
    ShowNatReads(if i < 0 then -i else i);
  }
}
