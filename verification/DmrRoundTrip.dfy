/** Reading a document that describes a DMR gives back the tree. */
module DmrRoundTrip {
  import opened Wrappers
  import opened Text
  import opened DmrTree
  import opened XmlStream
  import opened DmrPrinter
  import opened D4Heap
  import opened D4Parser
  import opened StreamNoise
  import opened DmrRep
  import opened DmrLookup
  import opened DmrReadAttrs
  import opened DmrReadVars
  import opened DmrDocument

  // ---------------------------------------------------------------- definitions

  predicate GroupHost(p: Reader, g: Id) {
    Ready(p) && p.s.top in {InsideDataset, InsideGroup} && p.btps.Empty?
    && p.grps.Push? && p.grps.top == g && g < |p.heap.groups|
  }

  lemma DefinitionTags()
    ensures "Dimension" != "Enumeration" && "Group" != "Enumeration" && "Group" != "Dimension"
  {
  }

  lemma StartDimDef(p: Reader, d: DimDef)
    requires Ready(p) && p.s.top in {InsideDataset, InsideGroup} && WfDimDef(d)
    ensures Start(p, DAP4_NS, "Dimension", map["name" := d.name, "size" := ShowInt(d.size)])
      == Enter(p, InsideDimDef).(dimDef := Some(d))
  {
    DefinitionTags();
    ReadersInvertShow(d.size);
    hide ReadUnsigned, ShowInt, ProcessEnumDef, ProcessGroup, ProcessVariable, ProcessAttribute;
    assert ProcessEnumDef(p, "Dimension", map["name" := d.name, "size" := ShowInt(d.size)]) == (p, false) by {
      NoEnumDef(p, map["name" := d.name, "size" := ShowInt(d.size)]);
    }
  }

  lemma NoEnumDef(p: Reader, xa: XmlAttrs)
    ensures ProcessEnumDef(p, "Dimension", xa) == (p, false)
  {
    DefinitionTags();
  }

  lemma RunLeafElem(p: Reader, name: string, xa: XmlAttrs)
    ensures RunNode(p, Dap(name, xa, [])) == End(Start(p, DAP4_NS, name, xa), DAP4_NS, name)
  {
    hide Start, End;
  }

  lemma EndDimDef(p: Reader, g: Id, d: DimDef)
    requires GroupHost(p, g)
    ensures var o := p.heap.groups[g];
      End(Enter(p, InsideDimDef).(dimDef := Some(d)), DAP4_NS, "Dimension")
      == p.(heap := WithGroup(p.heap, g, o.(dims := o.dims + [d])))
  {
  }

  lemma ReadDimDef(p: Reader, g: Id, d: DimDef)
    requires GroupHost(p, g) && WfDimDef(d)
    ensures var o := p.heap.groups[g];
      RunNode(p, PrintDimDef(d))
      == p.(heap := WithGroup(p.heap, g, o.(dims := o.dims + [d])))
  {
    hide Start, End, RunNode, ShowInt;
    StartDimDef(p, d);
    EndDimDef(p, g, d);
    RunLeafElem(p, "Dimension", map["name" := d.name, "size" := ShowInt(d.size)]);
  }

  lemma ReadDimDefThen(p: Reader, g: Id, d: DimDef, rest: seq<Node>)
    requires GroupHost(p, g) && WfDimDef(d)
    ensures var o := p.heap.groups[g];
      RunNodes(p, [PrintDimDef(d)] + rest)
      == RunNodes(p.(heap := WithGroup(p.heap, g, o.(dims := o.dims + [d]))), rest)
  {
    ReadDimDef(p, g, d);
    RunOne(p, PrintDimDef(d), rest);
  }

  lemma {:induction false} ReadDimDefs(p: Reader, g: Id, ds: seq<DimDef>)
    requires GroupHost(p, g) && forall i :: 0 <= i < |ds| ==> WfDimDef(ds[i])
    ensures var o := p.heap.groups[g];
      RunNodes(p, PrintDimDefs(ds)) == p.(heap := WithGroup(p.heap, g, o.(dims := o.dims + ds)))
    decreases |ds|
  {
    hide RunNode, Start, End;
    var o := p.heap.groups[g];
    if ds == [] {
      assert o.dims + [] == o.dims && p.heap.groups[g := o] == p.heap.groups;
    } else {
      var p1 := p.(heap := WithGroup(p.heap, g, o.(dims := o.dims + [ds[0]])));
      ReadDimDefThen(p, g, ds[0], PrintDimDefs(ds[1..]));
      ReadDimDefs(p1, g, ds[1..]);
      assert o.dims + [ds[0]] + ds[1..] == o.dims + ds;
      assert p1.heap.groups[g := o.(dims := o.dims + ds)] == p.heap.groups[g := o.(dims := o.dims + ds)];
    }
  }

  lemma StartConst(p: Reader, e: EnumDef, c: EnumConst)
    requires !p.stopped && p.s.Push? && p.s.top == InsideEnumDef && p.enumDef == Some(e)
    requires WfConst(e.basetype, c)
    ensures Start(p, DAP4_NS, "EnumConst", map["name" := c.tag, "value" := ShowInt(c.value)])
      == Enter(p, InsideEnumConst).(enumDef := Some(e.(consts := e.consts + [c])))
  {
    ReadersInvertShow(c.value);
    hide ReadSigned, ShowInt;
  }

  lemma ReadConst(p: Reader, e: EnumDef, c: EnumConst)
    requires !p.stopped && p.s.Push? && p.s.top == InsideEnumDef && p.enumDef == Some(e)
    requires WfConst(e.basetype, c)
    ensures RunNode(p, PrintConst(c))
      == p.(enumDef := Some(e.(consts := e.consts + [c])))
  {
    hide Start, RunNode, ShowInt;
    StartConst(p, e, c);
    RunLeafElem(p, "EnumConst", map["name" := c.tag, "value" := ShowInt(c.value)]);
  }

  lemma ReadConstThen(p: Reader, e: EnumDef, c: EnumConst, rest: seq<Node>)
    requires !p.stopped && p.s.Push? && p.s.top == InsideEnumDef && p.enumDef == Some(e)
    requires WfConst(e.basetype, c)
    ensures RunNodes(p, [PrintConst(c)] + rest)
      == RunNodes(p.(enumDef := Some(e.(consts := e.consts + [c]))), rest)
  {
    ReadConst(p, e, c);
    RunOne(p, PrintConst(c), rest);
  }

  lemma {:induction false} ReadConsts(p: Reader, e: EnumDef, cs: seq<EnumConst>)
    requires !p.stopped && p.s.Push? && p.s.top == InsideEnumDef && p.enumDef == Some(e)
    requires forall i :: 0 <= i < |cs| ==> WfConst(e.basetype, cs[i])
    ensures RunNodes(p, PrintConsts(cs)) == p.(enumDef := Some(e.(consts := e.consts + cs)))
    decreases |cs|
  {
    hide RunNode, Start, End;
    if cs == [] {
      assert e.consts + [] == e.consts;
    } else {
      var e1 := e.(consts := e.consts + [cs[0]]);
      ReadConstThen(p, e, cs[0], PrintConsts(cs[1..]));
      ReadConsts(p.(enumDef := Some(e1)), e1, cs[1..]);
      assert e.consts + [cs[0]] + cs[1..] == e.consts + cs;
    }
  }

  lemma ReadEnum(p: Reader, g: Id, e: EnumDef)
    requires GroupHost(p, g) && WfEnum(e)
    ensures var o := p.heap.groups[g];
      RunNode(p, PrintEnum(e))
      == p.(heap := WithGroup(p.heap, g, o.(enums := o.enums + [e])))
  {
    hide Start, End, TypeName;
    var e0 := EnumDef(e.name, e.basetype, []);
    var p1 := Enter(p, InsideEnumDef).(enumDef := Some(e0));
    StartEnum(p, e);
    ReadConsts(p1, e0, e.consts);
    assert [] + e.consts == e.consts;
    EndEnum(p, g, e);
  }

  lemma StartEnum(p: Reader, e: EnumDef)
    requires Ready(p) && p.s.top in {InsideDataset, InsideGroup} && IsIntegerType(e.basetype)
    ensures Start(p, DAP4_NS, "Enumeration", map["name" := e.name, "basetype" := TypeName(e.basetype)])
      == Enter(p, InsideEnumDef).(enumDef := Some(EnumDef(e.name, e.basetype, [])))
  {
    TypeNameReads(e.basetype);
  }

  lemma EndEnum(p: Reader, g: Id, e: EnumDef)
    requires GroupHost(p, g)
    ensures var o := p.heap.groups[g];
      End(Enter(p, InsideEnumDef).(enumDef := Some(e)), DAP4_NS, "Enumeration")
      == p.(heap := WithGroup(p.heap, g, o.(enums := o.enums + [e])))
  {
  }

  lemma {:induction false} ReadEnums(p: Reader, g: Id, es: seq<EnumDef>)
    requires GroupHost(p, g) && forall i :: 0 <= i < |es| ==> WfEnum(es[i])
    ensures var o := p.heap.groups[g];
      RunNodes(p, PrintEnums(es)) == p.(heap := WithGroup(p.heap, g, o.(enums := o.enums + es)))
    decreases |es|
  {
    hide RunNode, Start, End;
    var o := p.heap.groups[g];
    if es == [] {
      assert o.enums + [] == o.enums && p.heap.groups[g := o] == p.heap.groups;
    } else {
      ReadEnum(p, g, es[0]);
      var p1 := p.(heap := WithGroup(p.heap, g, o.(enums := o.enums + [es[0]])));
      RunOne(p, PrintEnum(es[0]), PrintEnums(es[1..]));
      ReadEnums(p1, g, es[1..]);
      assert o.enums + [es[0]] + es[1..] == o.enums + es;
      assert p1.heap.groups[g := o.(enums := o.enums + es)] == p.heap.groups[g := o.(enums := o.enums + es)];
    }
  }

  // ---------------------------------------------------------------- what is known

  lemma KnownStays(a: seq<GroupObj>, b: seq<GroupObj>, sd: Paths, se: Paths)
    requires GroupsGrow(a, b) && Linked(a) && Known(a, sd, se)
    ensures Known(b, sd, se)
  {
    forall path ensures DimKnown(a, path) ==> DimKnown(b, path)
                ensures EnumKnown(a, path) ==> EnumKnown(b, path) {
      KnownGrows(a, b, path);
    }
  }

  /** A group's own definitions become known. */
  lemma OwnKnown(gs: seq<GroupObj>, id: Id, path: seq<string>, sd: Paths, se: Paths)
    requires Placed(gs, id, path) && Known(gs, sd, se)
    requires forall i :: 0 <= i < |gs[id].dims| ==> WfDimDef(gs[id].dims[i])
    requires forall i :: 0 <= i < |gs[id].enums| ==> WfEnum(gs[id].enums[i])
    ensures Known(gs, sd + DimPaths(gs[id].dims, path), se + EnumPaths(gs[id].enums, path))
  {
    forall i | 0 <= i < |gs[id].dims| ensures DimKnown(gs, path + [gs[id].dims[i].name]) {
      OwnDimKnown(gs, id, path, i);
    }
    if |path| <= 1 {
      forall i | 0 <= i < |gs[id].enums| ensures EnumKnown(gs, path + [gs[id].enums[i].name]) {
        OwnEnumKnown(gs, id, path, i);
      }
    }
  }

  /** So do its own enumerations by their names alone, at any depth. */
  lemma EnumsHereKnown(gs: seq<GroupObj>, id: Id, path: seq<string>)
    requires Placed(gs, id, path) && forall i :: 0 <= i < |gs[id].enums| ==> WfEnum(gs[id].enums[i])
    ensures EnumsHere(gs, id, OwnEnums(gs[id].enums, path))
  {
    assert id < |gs|;
    hide Placed, FindEnumDef, EnumRefRep;
    var own := OwnEnums(gs[id].enums, path);
    forall q | q in own && q != []
      ensures Free(q[|q| - 1], '/')
      ensures var r := FindEnumDef(gs, id, q[|q| - 1]); r.Found? && EnumRefRep(gs, r.ref, q) {
      var i :| 0 <= i < |gs[id].enums| && q == path + [gs[id].enums[i].name];
      OwnEnum(gs, id, path, i);
    }
  }

  // ---------------------------------------------------------------- groups

  /** q is p with a grown heap, leftovers of attributes, and n more entries on the attribute
      stack. */
  predicate SameButAtts(p: Reader, q: Reader, n: nat) {
    q == p.(heap := q.heap, attrName := q.attrName, attrType := q.attrType, atts := q.atts)
    && Depth(q.atts) == Depth(p.atts) + n
  }

  /** Only group `id` and table `t` of the older objects may have changed. */
  predicate GrewAt(a: Heap, b: Heap, id: Id, t: Id) {
    && a.vars <= b.vars
    && |a.tables| <= |b.tables| && (forall u :: 0 <= u < |a.tables| && u != t ==> b.tables[u] == a.tables[u])
    && GroupsGrow(a.groups, b.groups) && Linked(b.groups)
    && (forall i :: 0 <= i < |a.groups| && i != id ==> b.groups[i] == a.groups[i])
  }

  lemma GrewTrans(a: Heap, b: Heap, c: Heap, id: Id, t: Id)
    requires GrewAt(a, b, id, t) && GrewAt(b, c, id, t)
    ensures GrewAt(a, c, id, t)
  {
  }

  /** A group as Start leaves it, ready for its contents. */
  predicate FreshGroup(p: Reader, g: Group, id: Id, path: seq<string>, sd: Paths, se: Paths) {
    && GroupHost(p, id) && p.atts.Push? && p.atts.top == p.heap.groups[id].attrs < |p.heap.tables|
    && p.heap.tables[p.atts.top] == []
    && p.heap.groups[id] == GroupObj(g.name, p.heap.groups[id].parent, [], [], [], [], p.atts.top)
    && Placed(p.heap.groups, id, path) && Linked(p.heap.groups) && Known(p.heap.groups, sd, se)
  }

  function DefinedIn(h: Heap, id: Id, g: Group): Heap
    requires id < |h.groups|
  {
    WithGroup(h, id, h.groups[id].(dims := g.dims, enums := g.enums))
  }

  lemma ReadDefinitions(p: Reader, g: Group, id: Id)
    requires GroupHost(p, id) && p.heap.groups[id].dims == [] && p.heap.groups[id].enums == []
    requires forall i :: 0 <= i < |g.dims| ==> WfDimDef(g.dims[i])
    requires forall i :: 0 <= i < |g.enums| ==> WfEnum(g.enums[i])
    ensures RunNodes(RunNodes(p, PrintDimDefs(g.dims)), PrintEnums(g.enums))
      == p.(heap := DefinedIn(p.heap, id, g))
  {
    hide RunNode, Start, End, RunNodes;
    ReadDimDefs(p, id, g.dims);
    var o := p.heap.groups[id];
    assert [] + g.dims == g.dims && [] + g.enums == g.enums;
    var p1 := p.(heap := WithGroup(p.heap, id, o.(dims := g.dims)));
    ReadEnums(p1, id, g.enums);
    assert p1.heap.groups[id := o.(dims := g.dims, enums := g.enums)] == DefinedIn(p.heap, id, g).groups;
  }

  lemma DefinitionsKnown(h: Heap, g: Group, id: Id, t: Id, path: seq<string>, sd: Paths, se: Paths)
    requires id < |h.groups| && h.groups[id].dims == [] && h.groups[id].enums == []
    requires Placed(h.groups, id, path) && Linked(h.groups) && Known(h.groups, sd, se)
    requires forall i :: 0 <= i < |g.dims| ==> WfDimDef(g.dims[i])
    requires forall i :: 0 <= i < |g.enums| ==> WfEnum(g.enums[i])
    ensures var h1 := DefinedIn(h, id, g);
      && GrewAt(h, h1, id, t) && Placed(h1.groups, id, path)
      && Known(h1.groups, sd + DimPaths(g.dims, path), se + EnumPaths(g.enums, path))
      && EnumsHere(h1.groups, id, OwnEnums(g.enums, path))
  {
    DefinedGrows(h, g, id, t);
    var gs := DefinedIn(h, id, g).groups;
    assert id < |gs| && gs[id].dims == g.dims && gs[id].enums == g.enums;
    hide Placed, Known, WfDimDef, WfEnum, EnumsHere, DimPaths, EnumPaths, OwnEnums, DefinedIn, GrewAt, GroupsGrow;
    PlacedGrows(h.groups, gs, id, path);
    KnownStays(h.groups, gs, sd, se);
    OwnKnown(gs, id, path, sd, se);
    EnumsHereKnown(gs, id, path);
  }

  lemma DefinedGrows(h: Heap, g: Group, id: Id, t: Id)
    requires id < |h.groups| && h.groups[id].dims == [] && h.groups[id].enums == [] && Linked(h.groups)
    ensures GroupsGrow(h.groups, DefinedIn(h, id, g).groups) && GrewAt(h, DefinedIn(h, id, g), id, t)
  {
  }

  /** What the variables and attributes of a group add to the state after its definitions. */
  predicate ContentsRead(p: Reader, q: Reader, g: Group, id: Id, ids: seq<Id>) {
    && p.atts.Push? && id < |p.heap.groups| && SameBut(p, q) && GrewAt(p.heap, q.heap, id, p.atts.top)
    && q.heap.groups == p.heap.groups[id := p.heap.groups[id].(vars := ids)]
    && VarsRep(q.heap, ids, g.vars, |p.heap.vars|, |p.heap.tables|)
    && TableRep(q.heap.tables, p.atts.top, g.attrs, p.atts.top)
  }

  lemma VarsHost(p: Reader, g: Group, id: Id)
    requires GroupHost(p, id)
    ensures VarHost(p, InGroup(id))
  {
  }

  /** After the variables, the group's table is still empty. */
  lemma AttrsToRead(p: Reader, p1: Reader, id: Id, ids: seq<Id>)
    requires GroupHost(p, id) && p.atts.Push? && p.atts.top < |p.heap.tables| && p.heap.tables[p.atts.top] == []
    requires SameBut(p, p1) && HeapExtends(AddKids(p.heap, InGroup(id), ids), p1.heap)
    ensures AttrHost(p1) && AttrsRep(p1.heap.tables, p1.heap.tables[p1.atts.top], [], p1.atts.top + 1)
  {
    assert p1.heap.tables[p.atts.top] == p.heap.tables[p.atts.top];
  }

  lemma ContentsDone(p: Reader, p1: Reader, q: Reader, g: Group, id: Id, path: seq<string>, sd: Paths, se: Paths,
                     ids: seq<Id>)
    requires GroupHost(p, id) && p.atts.Push? && p.atts.top < |p.heap.tables| && p.heap.groups[id].vars == []
    requires Linked(p.heap.groups) && Placed(p.heap.groups, id, path) && Known(p.heap.groups, sd, se)
    requires SameBut(p, p1) && HeapExtends(AddKids(p.heap, InGroup(id), ids), p1.heap)
    requires VarsRep(p1.heap, ids, g.vars, |p.heap.vars|, |p.heap.tables|)
    requires SameBut(p1, q) && TableExtended(p1.heap, q.heap, p.atts.top, g.attrs)
    ensures ContentsRead(p, q, g, id, ids) && Placed(q.heap.groups, id, path) && Known(q.heap.groups, sd, se)
  {
    hide DimKnown, EnumKnown, VarsRep, AttrsRep, Placed;
    assert [] + ids == ids;
    assert p1.heap.groups == AddKids(p.heap, InGroup(id), ids).groups;
    AfterAttrs(p.heap, p1.heap, q.heap, p.atts.top, g, ids);
    assert GroupsGrow(p.heap.groups, q.heap.groups);
    PlacedGrows(p.heap.groups, q.heap.groups, id, path);
    KnownStays(p.heap.groups, q.heap.groups, sd, se);
  }

  lemma {:induction false} ReadVarsAndAttrs(p: Reader, ns: seq<Node>, g: Group, id: Id, path: seq<string>,
                                            sd: Paths, se: Paths, own: Paths)
    returns (ids: seq<Id>)
    requires GroupHost(p, id) && p.atts.Push? && p.atts.top < |p.heap.tables| && p.heap.tables[p.atts.top] == []
    requires p.heap.groups[id].vars == [] && Linked(p.heap.groups) && Placed(p.heap.groups, id, path)
    requires Known(p.heap.groups, sd, se) && EnumsHere(p.heap.groups, id, own)
    requires VarDocs(ns, g.vars, path, sd, se, own) && WfAttrs(g.attrs)
    ensures var q := RunNodes(RunNodes(p, ns), PrintAttrs(g.attrs));
      && ContentsRead(p, q, g, id, ids)
      && Placed(q.heap.groups, id, path) && Known(q.heap.groups, sd, se)
  {
    VarsHost(p, g, id);
    assert [] + g.attrs == g.attrs;
    assert p.grps.Push? && p.grps.top == id;
    hide *;
    SaidVars(p.heap.groups, id, path, ns, g.vars, sd, se, own);
    ids := ReadVars(p, ns, g.vars, InGroup(id));
    var p1 := RunNodes(p, ns);
    AttrsToRead(p, p1, id, ids);
    ReadAttrs(p1, g.attrs, []);
    ContentsDone(p, p1, RunNodes(p1, PrintAttrs(g.attrs)), g, id, path, sd, se, ids);
  }

  lemma AfterAttrs(a: Heap, b: Heap, c: Heap, t: Id, g: Group, ids: seq<Id>)
    requires t < |a.tables| <= |b.tables| && VarsRep(b, ids, g.vars, |a.vars|, |a.tables|)
    requires TableExtended(b, c, t, g.attrs)
    ensures VarsRep(c, ids, g.vars, |a.vars|, |a.tables|) && TableRep(c.tables, t, g.attrs, t)
  {
    VarsStable(b, c, ids, g.vars, |a.vars|, |a.tables|);
  }

  /** Everything inside a group element. */
  lemma {:induction false} ReadBody(p: Reader, ns: seq<Node>, g: Group, id: Id, path: seq<string>,
                                    sd: Paths, se: Paths)
    requires FreshGroup(p, g, id, path, sd, se) && GroupBody(ns, g, path, sd, se)
    ensures BodyRead(p, RunNodes(p, ns), g, id, path, sd, se)
    decreases g, 1
  {
    RunBody(p, ns, g, path, sd, se);
    ReadDefinitions(p, g, id);
    DefinitionsKnown(p.heap, g, id, p.atts.top, path, sd, se);
    ReadBodyRest(p, p.(heap := DefinedIn(p.heap, id, g)), ns, g, id, path, sd, se);
  }

  predicate BodyRead(p: Reader, q: Reader, g: Group, id: Id, path: seq<string>, sd: Paths, se: Paths) {
    && p.atts.Push? && SameButAtts(p, q, CountGroups(g.groups)) && GrewAt(p.heap, q.heap, id, p.atts.top)
    && GroupRep(q.heap, id, g, id, |p.heap.vars|, p.atts.top)
    && Known(q.heap.groups, sd + AllDims(g, path), se + AllEnums(g, path))
  }

  lemma {:induction false} ReadBodyRest(p: Reader, p1: Reader, ns: seq<Node>, g: Group, id: Id, path: seq<string>,
                                        sd: Paths, se: Paths)
    requires FreshGroup(p, g, id, path, sd, se) && GroupBody(ns, g, path, sd, se)
    requires p1 == p.(heap := DefinedIn(p.heap, id, g)) && GrewAt(p.heap, p1.heap, id, p.atts.top)
    requires Placed(p1.heap.groups, id, path)
    requires Known(p1.heap.groups, sd + DimPaths(g.dims, path), se + EnumPaths(g.enums, path))
    requires EnumsHere(p1.heap.groups, id, OwnEnums(g.enums, path))
    ensures var p2 := RunNodes(RunNodes(p1, VarPart(ns, g)), PrintAttrs(g.attrs));
      BodyRead(p, RunNodes(p2, ns[Lead(g)..]), g, id, path, sd, se)
    decreases g, 0
  {
    hide RunNodes, VarDocs, GroupDocs, EnumsHere, OwnEnums, DimKnown, EnumKnown, Walk, GroupPath, AttrsRep, VarsRep,
      BodyRead, GroupsRead, DimPaths, EnumPaths;
    var sd1, se1 := sd + DimPaths(g.dims, path), se + EnumPaths(g.enums, path);
    var vars := ReadVarsAndAttrs(p1, VarPart(ns, g), g, id, path, sd1, se1, OwnEnums(g.enums, path));
    var p2 := RunNodes(RunNodes(p1, VarPart(ns, g)), PrintAttrs(g.attrs));
    var kids := ReadGroups(p2, ns[Lead(g)..], g.groups, id, path, sd1, se1);
    BodyFromParts(p, p1, p2, RunNodes(p2, ns[Lead(g)..]), g, id, path, sd, se, vars, kids);
  }

  lemma BodyFromParts(p: Reader, p1: Reader, p2: Reader, q: Reader, g: Group, id: Id, path: seq<string>,
                      sd: Paths, se: Paths, vars: seq<Id>, kids: seq<Id>)
    requires FreshGroup(p, g, id, path, sd, se)
    requires p1 == p.(heap := DefinedIn(p.heap, id, g)) && GrewAt(p.heap, p1.heap, id, p.atts.top)
    requires ContentsRead(p1, p2, g, id, vars)
    requires GroupsRead(p2, q, g.groups, id, path, sd + DimPaths(g.dims, path), se + EnumPaths(g.enums, path), kids)
    ensures BodyRead(p, q, g, id, path, sd, se)
  {
    hide GroupPath, Walk, DimKnown, EnumKnown;
    var t := p.atts.top;
    BodyGrew(p.heap, p1.heap, p2.heap, q.heap, id, t, kids);
    assert p2.heap.groups[id].groups == [] && [] + kids == kids;
    BodyRep(p.heap, p2.heap, q.heap, g, id, t, vars, kids);
    UnionAssoc(sd, DimPaths(g.dims, path), AllDimsOf(g.groups, path));
    UnionAssoc(se, EnumPaths(g.enums, path), AllEnumsOf(g.groups, path));
  }

  lemma UnionAssoc(a: Paths, b: Paths, c: Paths)
    ensures (a + b) + c == a + (b + c)
  {
  }

  lemma BodyGrew(a: Heap, b: Heap, c: Heap, d: Heap, id: Id, t: Id, kids: seq<Id>)
    requires GrewAt(a, b, id, t) && GrewAt(b, c, id, t) && GroupsAdded(c, d, id, kids)
    ensures GrewAt(a, d, id, t) && GroupsGrow(c.groups, d.groups)
  {
    AddedGrows(c, d, id, kids);
    GrewTrans(a, b, c, id, t);
    assert GrewAt(c, d, id, t);
    GrewTrans(a, c, d, id, t);
  }

  lemma RunBody(p: Reader, ns: seq<Node>, g: Group, path: seq<string>, sd: Paths, se: Paths)
    requires GroupBody(ns, g, path, sd, se)
    ensures Lead(g) <= |ns|
    ensures RunNodes(p, ns) ==
      RunNodes(RunNodes(RunNodes(RunNodes(RunNodes(p, PrintDimDefs(g.dims)), PrintEnums(g.enums)),
        VarPart(ns, g)), PrintAttrs(g.attrs)), ns[Lead(g)..])
  {
    hide RunNodes, PrintDimDefs, PrintEnums, PrintAttrs, VarDocs, GroupDocs;
    var d, e, v, a, k := PrintDimDefs(g.dims), PrintEnums(g.enums), VarPart(ns, g),
                         PrintAttrs(g.attrs), ns[Lead(g)..];
    assert ns == d + (e + (v + (a + k)));
    RunNodesConcat(p, d, e + (v + (a + k)));
    RunNodesConcat(RunNodes(p, d), e, v + (a + k));
    RunNodesConcat(RunNodes(RunNodes(p, d), e), v, a + k);
    RunNodesConcat(RunNodes(RunNodes(RunNodes(p, d), e), v), a, k);
  }

  lemma BodyRep(a: Heap, b: Heap, c: Heap, g: Group, id: Id, t: Id, vars: seq<Id>, kids: seq<Id>)
    requires id < |b.groups| && |a.groups| == |b.groups| && |a.vars| <= |b.vars| && t < |a.tables| <= |b.tables|
    requires b.groups[id].name == g.name && b.groups[id].dims == g.dims && b.groups[id].enums == g.enums
    requires b.groups[id].vars == vars && b.groups[id].attrs == t && b.groups[id].groups == []
    requires VarsRep(b, vars, g.vars, |a.vars|, |a.tables|) && TableRep(b.tables, t, g.attrs, t)
    requires id < |c.groups| && c.groups[id] == b.groups[id].(groups := kids)
    requires b.vars <= c.vars && b.tables <= c.tables && GroupsGrow(b.groups, c.groups)
    requires GroupsRep(c, kids, g.groups, |b.groups|, |b.vars|, |b.tables|)
    ensures GroupRep(c, id, g, id, |a.vars|, t)
  {
    VarsStable(b, c, vars, g.vars, |a.vars|, |a.tables|);
    VarsWeaken(c, vars, g.vars, |a.vars|, |a.tables|, |a.vars|, t);
    AttrsStable(b.tables, c.tables, b.tables[t], g.attrs, t + 1);
    assert TableRep(c.tables, t, g.attrs, t);
    forall i | 0 <= i < |g.groups| ensures GroupRep(c, kids[i], g.groups[i], id + 1, |a.vars|, t) {
      GroupWeaken(c, kids[i], g.groups[i], |b.groups|, |b.vars|, |b.tables|, id + 1, |a.vars|, t);
    }
  }

  /** Child groups are added after whatever the group holds already. */
  predicate GroupsAdded(a: Heap, b: Heap, id: Id, ids: seq<Id>) {
    && id < |a.groups| <= |b.groups| && a.vars <= b.vars && a.tables <= b.tables
    && b.groups[id] == a.groups[id].(groups := a.groups[id].groups + ids)
    && (forall i :: 0 <= i < |a.groups| && i != id ==> b.groups[i] == a.groups[i])
    && Linked(b.groups)
  }

  predicate KidsHost(p: Reader, id: Id, path: seq<string>, sd: Paths, se: Paths) {
    GroupHost(p, id) && Placed(p.heap.groups, id, path) && Linked(p.heap.groups) && Known(p.heap.groups, sd, se)
  }

  lemma StartGroup(p: Reader, g: Group, id: Id, path: seq<string>, sd: Paths, se: Paths)
    requires KidsHost(p, id, path, sd, se) && GroupName(g.name)
    requires NewName(p.heap.groups, id, g.name)
    ensures var q := Start(p, DAP4_NS, "Group", map["name" := g.name]); var c := |p.heap.groups|;
      && q == Enter(p, InsideGroup).(heap := q.heap, grps := Push(c, p.grps), atts := Push(|p.heap.tables|, p.atts))
      && GroupsAdded(p.heap, q.heap, id, [c]) && |q.heap.groups| == c + 1
      && q.heap.vars == p.heap.vars && q.heap.tables == p.heap.tables + [[]]
      && FreshGroup(q, g, c, path + [g.name], sd, se)
  {
    DefinitionTags();
    var xa := map["name" := g.name];
    var c, t := |p.heap.groups|, |p.heap.tables|;
    var q := Start(p, DAP4_NS, "Group", xa);
    assert q == Enter(ProcessGroup(p, "Group", xa).0, InsideGroup);
    var a, b := p.heap.groups, q.heap.groups;
    assert b[c] == GroupObj(g.name, Some(id), [], [], [], [], t);
    assert GroupsGrow(a, b);
    ChildPlaced(a, b, id, path, g.name);
    KnownStays(a, b, sd, se);
  }

  predicate OneGroupRead(p: Reader, q: Reader, g: Group, id: Id, path: seq<string>, sd: Paths, se: Paths) {
    var c := |p.heap.groups|;
    && SameButAtts(p, q, 1 + CountGroups(g.groups)) && GroupsAdded(p.heap, q.heap, id, [c])
    && GroupRep(q.heap, c, g, c, |p.heap.vars|, |p.heap.tables|)
    && Known(q.heap.groups, sd + AllDims(g, path + [g.name]), se + AllEnums(g, path + [g.name]))
  }

  predicate GroupsRead(p: Reader, q: Reader, gs: seq<Group>, id: Id, path: seq<string>, sd: Paths, se: Paths,
                       ids: seq<Id>) {
    && SameButAtts(p, q, CountGroups(gs)) && GroupsAdded(p.heap, q.heap, id, ids)
    && GroupsRep(q.heap, ids, gs, |p.heap.groups|, |p.heap.vars|, |p.heap.tables|)
    && Known(q.heap.groups, sd + AllDimsOf(gs, path), se + AllEnumsOf(gs, path))
  }

  /** No child of group `id` has this name. */
  predicate NewName(gs: seq<GroupObj>, id: Id, name: string)
    requires Linked(gs) && id < |gs|
  {
    forall i :: 0 <= i < |gs[id].groups| ==> gs[gs[id].groups[i]].name != name
  }

  /** One group element adds one child, which stands for the printed group; the attribute
      stack keeps an entry for it and for each group inside it. */
  lemma {:induction false} ReadGroup(p: Reader, n: Node, g: Group, id: Id, path: seq<string>, sd: Paths, se: Paths)
    requires KidsHost(p, id, path, sd, se) && GroupName(g.name) && GroupDoc(n, g, path + [g.name], sd, se)
    requires NewName(p.heap.groups, id, g.name)
    ensures OneGroupRead(p, RunNode(p, n), g, id, path, sd, se)
    decreases g, 2
  {
    hide Start, End, RunNodes, GroupBody, FreshGroup, KidsHost, NewName, BodyRead, OneGroupRead;
    var c := |p.heap.groups|;
    StartGroup(p, g, id, path, sd, se);
    var p1 := Start(p, DAP4_NS, "Group", map["name" := g.name]);
    ReadBody(p1, n.children, g, c, path + [g.name], sd, se);
    EndGroupEl(p, p1, RunNodes(p1, n.children), g, id, path, sd, se);
  }

  lemma EndGroupEl(p: Reader, p1: Reader, p2: Reader, g: Group, id: Id, path: seq<string>, sd: Paths, se: Paths)
    requires KidsHost(p, id, path, sd, se)
    requires var c := |p.heap.groups|;
      && p1 == Enter(p, InsideGroup).(heap := p1.heap, grps := Push(c, p.grps), atts := Push(|p.heap.tables|, p.atts))
      && GroupsAdded(p.heap, p1.heap, id, [c]) && |p1.heap.groups| == c + 1
      && p1.heap.vars == p.heap.vars && p1.heap.tables == p.heap.tables + [[]]
    requires BodyRead(p1, p2, g, |p.heap.groups|, path + [g.name], sd, se)
    ensures OneGroupRead(p, End(p2, DAP4_NS, "Group"), g, id, path, sd, se)
  {
    EndsGroup(p2);
    hide End, GroupRep, DimKnown, EnumKnown, AllDims, AllEnums, Placed, WfGroup;
    var q := p2.(grps := p.grps, s := p.s);
    assert p2.btps.Empty?;
    assert End(p2, DAP4_NS, "Group") == q;
    assert p.heap.tables <= q.heap.tables;
  }

  lemma EndsGroup(p: Reader)
    ensures !p.stopped && p.s.Push? && p.s.top == InsideGroup && p.btps.Empty? && p.grps.Push? ==>
      End(p, DAP4_NS, "Group") == p.(grps := p.grps.rest, s := p.s.rest)
  {
  }

  /** A list of group elements. */
  lemma {:induction false} ReadGroups(p: Reader, ns: seq<Node>, gs: seq<Group>, id: Id, path: seq<string>,
                                      sd: Paths, se: Paths)
    returns (ids: seq<Id>)
    requires KidsHost(p, id, path, sd, se) && GroupDocs(ns, gs, path, sd, se)
    requires forall j :: 0 <= j < |gs| ==> NewName(p.heap.groups, id, gs[j].name)
    ensures GroupsRead(p, RunNodes(p, ns), gs, id, path, sd, se, ids)
    decreases gs, 0
  {
    hide *;
    if gs == [] {
      ids := [];
      NoGroupsRead(p, ns, id, path, sd, se);
    } else {
      FirstDoc(p, ns, gs, id, path, sd, se);
      var g := gs[0];
      ReadGroup(p, ns[0], g, id, path, sd, se);
      assert ns == [ns[0]] + ns[1..];
      RunOne(p, ns[0], ns[1..]);
      ids := ReadGroupsRest(p, RunNode(p, ns[0]), ns, gs, id, path, sd, se);
    }
  }

  lemma NoGroupsRead(p: Reader, ns: seq<Node>, id: Id, path: seq<string>, sd: Paths, se: Paths)
    requires KidsHost(p, id, path, sd, se) && GroupDocs(ns, [], path, sd, se)
    ensures GroupsRead(p, RunNodes(p, ns), [], id, path, sd, se, [])
  {
    hide Walk, GroupPath, DimKnown, EnumKnown;
    assert p.heap.groups[id].groups + [] == p.heap.groups[id].groups;
    assert sd + {} == sd && se + {} == se;
  }

  lemma FirstDoc(p: Reader, ns: seq<Node>, gs: seq<Group>, id: Id, path: seq<string>, sd: Paths, se: Paths)
    requires KidsHost(p, id, path, sd, se) && GroupDocs(ns, gs, path, sd, se) && gs != []
    requires forall j :: 0 <= j < |gs| ==> NewName(p.heap.groups, id, gs[j].name)
    ensures |ns| == |gs| && GroupName(gs[0].name) && GroupDoc(ns[0], gs[0], path + [gs[0].name], sd, se)
    ensures NewName(p.heap.groups, id, gs[0].name)
  {
    hide GroupDoc, NewName, Known, Placed, AllDims, AllEnums;
  }

  lemma ReadyForNext(p: Reader, p1: Reader, gs: seq<Group>, id: Id, path: seq<string>, sd: Paths, se: Paths)
    requires KidsHost(p, id, path, sd, se) && gs != []
    requires forall i :: 0 < i < |gs| ==> gs[i].name != gs[0].name
    requires forall j :: 0 <= j < |gs| ==> NewName(p.heap.groups, id, gs[j].name)
    requires OneGroupRead(p, p1, gs[0], id, path, sd, se)
    ensures KidsHost(p1, id, path, sd + AllDims(gs[0], path + [gs[0].name]), se + AllEnums(gs[0], path + [gs[0].name]))
    ensures forall j :: 0 <= j < |gs[1..]| ==> NewName(p1.heap.groups, id, gs[1..][j].name)
  {
    var c := |p.heap.groups|;
    AddedGrows(p.heap, p1.heap, id, [c]);
    PlacedGrows(p.heap.groups, p1.heap.groups, id, path);
    NamesDiffer(p.heap, p1.heap, id, c, gs);
  }

  lemma {:induction false} ReadGroupsRest(p: Reader, p1: Reader, ns: seq<Node>, gs: seq<Group>, id: Id,
                                          path: seq<string>, sd: Paths, se: Paths)
    returns (ids: seq<Id>)
    requires KidsHost(p, id, path, sd, se) && gs != [] && GroupDocs(ns, gs, path, sd, se)
    requires forall j :: 0 <= j < |gs| ==> NewName(p.heap.groups, id, gs[j].name)
    requires OneGroupRead(p, p1, gs[0], id, path, sd, se)
    ensures GroupsRead(p, RunNodes(p1, ns[1..]), gs, id, path, sd, se, ids)
    decreases gs[1..], 1
  {
    hide RunNodes, AllDims, AllEnums, OneGroupRead, GroupsRead, KidsHost, NewName, GroupDoc;
    var g := gs[0];
    var c := |p.heap.groups|;
    ReadyForNext(p, p1, gs, id, path, sd, se);
    var sd1, se1 := sd + AllDims(g, path + [g.name]), se + AllEnums(g, path + [g.name]);
    var rest := ReadGroups(p1, ns[1..], gs[1..], id, path, sd1, se1);
    ids := [c] + rest;
    assert gs == [g] + gs[1..];
    GroupsFromParts(p, p1, RunNodes(p1, ns[1..]), g, gs[1..], id, path, sd, se, sd1, se1, rest, ids);
  }

  lemma GroupsFromParts(p: Reader, p1: Reader, q: Reader, g: Group, more: seq<Group>, id: Id, path: seq<string>,
                        sd: Paths, se: Paths, sd1: Paths, se1: Paths, rest: seq<Id>, ids: seq<Id>)
    requires ids == [|p.heap.groups|] + rest
    requires OneGroupRead(p, p1, g, id, path, sd, se)
    requires sd1 == sd + AllDims(g, path + [g.name]) && se1 == se + AllEnums(g, path + [g.name])
    requires GroupsRead(p1, q, more, id, path, sd1, se1, rest)
    ensures GroupsRead(p, q, [g] + more, id, path, sd, se, ids)
  {
    hide GroupRep, DimKnown, EnumKnown, AllDims, AllEnums, Linked, GroupsGrow;
    var gs := [g] + more;
    assert gs[1..] == more;
    MoreGroups(p.heap, p1.heap, q.heap, id, |p.heap.groups|, rest, gs);
    assert sd1 + AllDimsOf(more, path) == sd + AllDimsOf(gs, path);
    assert se1 + AllEnumsOf(more, path) == se + AllEnumsOf(gs, path);
  }

  lemma AddedGrows(a: Heap, b: Heap, id: Id, ids: seq<Id>)
    requires GroupsAdded(a, b, id, ids)
    ensures GroupsGrow(a.groups, b.groups)
  {
  }

  lemma NamesDiffer(a: Heap, b: Heap, id: Id, c: Id, gs: seq<Group>)
    requires GroupsAdded(a, b, id, [c]) && c == |a.groups| < |b.groups| && Linked(a.groups)
    requires gs != [] && b.groups[c].name == gs[0].name
    requires forall i :: 0 < i < |gs| ==> gs[i].name != gs[0].name
    requires forall j :: 0 <= j < |gs| ==> NewName(a.groups, id, gs[j].name)
    ensures forall j :: 0 <= j < |gs[1..]| ==> NewName(b.groups, id, gs[1..][j].name)
  {
    AddedGrows(a, b, id, [c]);
    forall j | 0 <= j < |gs[1..]| ensures NewName(b.groups, id, gs[1..][j].name) {
      assert gs[1..][j] == gs[j + 1] && NewName(a.groups, id, gs[j + 1].name);
      forall i | 0 <= i < |b.groups[id].groups| ensures b.groups[b.groups[id].groups[i]].name != gs[j + 1].name {
        if i < |a.groups[id].groups| {
          assert b.groups[id].groups[i] == a.groups[id].groups[i];
        } else {
          assert b.groups[id].groups[i] == c;
        }
      }
    }
  }

  lemma MoreGroups(a: Heap, b: Heap, h: Heap, id: Id, c: Id, rest: seq<Id>, gs: seq<Group>)
    requires GroupsAdded(a, b, id, [c]) && GroupsAdded(b, h, id, rest) && c == |a.groups| && gs != []
    requires GroupRep(b, c, gs[0], c, |a.vars|, |a.tables|)
    requires GroupsRep(h, rest, gs[1..], |b.groups|, |b.vars|, |b.tables|)
    ensures GroupsAdded(a, h, id, [c] + rest)
    ensures GroupsRep(h, [c] + rest, gs, |a.groups|, |a.vars|, |a.tables|)
  {
    assert a.groups[id].groups + [c] + rest == a.groups[id].groups + ([c] + rest);
    AddedGrows(b, h, id, rest);
    GroupStable(b, h, c, gs[0], c, |a.vars|, |a.tables|);
    forall i | 0 <= i < |gs| ensures GroupRep(h, ([c] + rest)[i], gs[i], c, |a.vars|, |a.tables|) {
      if i > 0 {
        assert GroupRep(h, rest[i - 1], gs[1..][i - 1], |b.groups|, |b.vars|, |b.tables|);
        GroupWeaken(h, rest[i - 1], gs[i], |b.groups|, |b.vars|, |b.tables|, c, |a.vars|, |a.tables|);
      }
    }
  }

  // ---------------------------------------------------------------- documents

  /** What the reader holds when it is done: the DMR, and nothing left open. */
  predicate ReadsAs(p: Reader, d: Dmr) {
    && !p.stopped && p.s == Push(ParserEnd, Empty) && p.btps.Empty? && p.grps.Empty?
    && p.dmrName == d.name && GroupRep(p.heap, ROOT, d.root, 0, 0, 0)
  }

  /** The reader at the end of a stream of callbacks, from startDocument to endDocument. */
  function ReadStream(es: seq<Event>): Reader {
    EndDocument(Run(StartDocument(NEW_READER), es))
  }

  /** The reader inside the Dataset element. */
  function InDataset(name: string): Reader {
    Enter(StartDocument(NEW_READER).(dmrName := name, grps := Push(ROOT, Empty)), InsideDataset)
  }

  lemma StartRoot(d: Dmr)
    requires d.root.name == "/"
    ensures Start(StartDocument(NEW_READER), DAP4_NS, "Dataset", map["name" := d.name]) == InDataset(d.name)
    ensures FreshGroup(InDataset(d.name), d.root, ROOT, [], {}, {})
  {
    assert Placed(InDataset(d.name).heap.groups, ROOT, []);
  }

  lemma EndRoot(d: Dmr, p2: Reader)
    requires BodyRead(InDataset(d.name), p2, d.root, ROOT, [], {}, {})
    ensures var q := EndDocument(End(p2, DAP4_NS, "Dataset"));
      ReadsAs(q, d) && Depth(q.atts) == CountGroups(d.root.groups)
  {
    hide GroupRep, AllDims, AllEnums, Known, GrewAt;
    var p1 := InDataset(d.name);
    assert p1.atts == Push(0, Empty) && Depth(p1.atts) == 1 + Depth(p1.atts.rest);
    assert End(p2, DAP4_NS, "Dataset") == p2.(s := Push(ParserEnd, Empty));
    GroupWeaken(p2.heap, ROOT, d.root, 0, 0, 0, 0, 0, 0);
  }

  lemma RunDataset(n: Node, d: Dmr)
    requires Describes(n, d)
    ensures RunNode(StartDocument(NEW_READER), n)
      == End(RunNodes(Start(StartDocument(NEW_READER), DAP4_NS, "Dataset", map["name" := d.name]), n.children),
             DAP4_NS, "Dataset")
  {
    hide Start, End, GroupBody, StartDocument;
  }

  lemma {:induction false} ReadClean(n: Node, d: Dmr)
    requires Describes(n, d)
    ensures var q := EndDocument(RunNode(StartDocument(NEW_READER), n));
      ReadsAs(q, d) && Depth(q.atts) == CountGroups(d.root.groups)
  {
    assert n.Elem? && d.root.name == "/" && GroupBody(n.children, d.root, [], {}, {});
    hide *;
    RunDataset(n, d);
    StartRoot(d);
    ReadBody(InDataset(d.name), n.children, d.root, ROOT, [], {}, {});
    EndRoot(d, RunNodes(InDataset(d.name), n.children));
  }

  /** Any document that, once stripped of foreign subtrees, of text between elements and of the
      cuts in the text of values, describes a DMR is read as that DMR and as no other; the
      reader ends in its end state with no open variable or group, and with one forgotten
      attribute table for each named group. */
  lemma ReadsDescribed(n: Node, d: Dmr, doc: seq<Node>)
    requires Describes(n, d) && Strip(doc, false) == Strip([n], false)
    ensures var q := ReadStream(Flatten(doc));
      && ReadsAs(q, d)
      && (forall d2: Dmr :: ReadsAs(q, d2) ==> d2 == d)
      && Depth(q.atts) == CountGroups(d.root.groups)
  {
    var p := StartDocument(NEW_READER);
    assert Quiet(p.s);
    RunFlatten(p, doc);
    StripInvisible(p, doc, false);
    StripInvisible(p, [n], false);
    RunOne(p, n, []);
    assert [n] + [] == [n];
    ReadClean(n, d);
    var q := ReadStream(Flatten(doc));
    forall d2: Dmr | ReadsAs(q, d2) ensures d2 == d {
      GroupUnique(q.heap, ROOT, d.root, d2.root, 0, 0, 0);
    }
  }

  /** The round trip: what is printed of a well-formed DMR is read as that DMR. */
  lemma RoundTrip(d: Dmr, doc: seq<Node>)
    requires WfDmr(d) && Strip(doc, false) == Strip([PrintDmr(d)], false)
    ensures var q := ReadStream(Flatten(doc));
      && ReadsAs(q, d)
      && (forall d2: Dmr :: ReadsAs(q, d2) ==> d2 == d)
      && Depth(q.atts) == CountGroups(d.root.groups)
  {
    PrintedDescribes(d);
    ReadsDescribed(PrintDmr(d), d, doc);
  }
}
