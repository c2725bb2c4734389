/** Why the attributes of a group have to come before its child groups: the end of a group does
    not pop the attribute stack, so what follows goes to the group that was entered last. */
module DmrLateAttrs {
  import opened DmrTree
  import opened XmlStream
  import opened DmrPrinter
  import opened D4Heap
  import opened D4Parser
  import opened DmrRep
  import opened DmrLookup
  import opened DmrReadAttrs
  import opened DmrTableOrder
  import opened DmrDocument
  import opened DmrRoundTrip

  /** The last group in preorder. */
  function LastIn(g: Group): Group {
    if g.groups == [] then g else LastIn(g.groups[|g.groups| - 1])
  }

  /** After p, groups were entered, the last one of them g: its table is on top. */
  predicate OnTop(p: Reader, q: Reader, g: Group) {
    && |p.heap.groups| < |q.heap.groups| && q.atts.Push?
    && q.atts.top == q.heap.groups[|q.heap.groups| - 1].attrs
    && q.heap.groups[|q.heap.groups| - 1].name == g.name
    && |p.heap.tables| <= q.atts.top < |q.heap.tables|
    && AttrsRep(q.heap.tables, q.heap.tables[q.atts.top], g.attrs, q.atts.top + 1)
  }

  lemma {:induction false} LastOfGroups(p: Reader, ns: seq<Node>, gs: seq<Group>, id: Id, path: seq<string>,
                                        sd: Paths, se: Paths)
    requires KidsHost(p, id, path, sd, se) && GroupDocs(ns, gs, path, sd, se) && gs != []
    requires forall j :: 0 <= j < |gs| ==> NewName(p.heap.groups, id, gs[j].name)
    ensures OnTop(p, RunNodes(p, ns), LastIn(gs[|gs| - 1]))
    decreases gs, 0
  {
    hide *;
    DocsFirst(ns, gs, path, sd, se);
    var g, more := gs[0], gs[1..];
    var p1 := RunNode(p, ns[0]);
    ReadGroup(p, ns[0], g, id, path, sd, se);
    RunFirst(p, ns);
    ReadyForNext(p, p1, gs, id, path, sd, se);
    MoreAfterGroup(p, p1, g, id, path, sd, se);
    LastOfGroup(p, ns[0], g, id, path, sd, se);
    if more == [] {
      assert ns[1..] == [] && gs[|gs| - 1] == g;
      RunNothing(p1);
    } else {
      assert more[|more| - 1] == gs[|gs| - 1];
      LastOfGroups(p1, ns[1..], more, id, path, sd + AllDims(g, path + [g.name]), se + AllEnums(g, path + [g.name]));
      TopFromLater(p, p1, RunNodes(p1, ns[1..]), LastIn(more[|more| - 1]));
    }
  }

  /** A group when its own definitions, variables and attributes have been read. */
  predicate BeforeKids(p1: Reader, p3: Reader, g: Group, id: Id)
    ensures BeforeKids(p1, p3, g, id) ==> id < |p3.heap.groups| && p3.heap.groups[id].groups == []
  {
    && p1.atts.Push? && id < |p1.heap.groups| && SameBut(p1, p3) && |p3.heap.groups| == |p1.heap.groups|
    && p3.heap.groups[id].groups == [] && p3.heap.groups[id].attrs == p3.atts.top
    && p3.heap.groups[id].name == p1.heap.groups[id].name
    && TableRep(p3.heap.tables, p3.atts.top, g.attrs, p3.atts.top)
  }

  lemma {:induction false} ReadUpToKids(p1: Reader, ns: seq<Node>, g: Group, id: Id, path: seq<string>,
                                        sd: Paths, se: Paths)
    returns (p3: Reader)
    requires FreshGroup(p1, g, id, path, sd, se) && GroupBody(ns, g, path, sd, se)
    ensures Lead(g) <= |ns| && RunNodes(p1, ns) == RunNodes(p3, ns[Lead(g)..])
    ensures BeforeKids(p1, p3, g, id)
    ensures KidsHost(p3, id, path, sd + DimPaths(g.dims, path), se + EnumPaths(g.enums, path))
  {
    hide RunNode, RunNodes, Start, End, DimKnown, EnumKnown, GroupDocs, EnumsHere;
    RunBody(p1, ns, g, path, sd, se);
    ReadDefinitions(p1, g, id);
    DefinitionsKnown(p1.heap, g, id, p1.atts.top, path, sd, se);
    var p2 := p1.(heap := DefinedIn(p1.heap, id, g));
    var vars := ReadVarsAndAttrs(p2, VarPart(ns, g), g, id, path, sd + DimPaths(g.dims, path),
                                 se + EnumPaths(g.enums, path), OwnEnums(g.enums, path));
    p3 := RunNodes(RunNodes(p2, VarPart(ns, g)), PrintAttrs(g.attrs));
  }

  lemma {:induction false} LastOfGroup(p: Reader, n: Node, g: Group, id: Id, path: seq<string>, sd: Paths, se: Paths)
    requires KidsHost(p, id, path, sd, se) && GroupName(g.name) && GroupDoc(n, g, path + [g.name], sd, se)
    requires NewName(p.heap.groups, id, g.name)
    ensures OnTop(p, RunNode(p, n), LastIn(g))
    decreases g, 2
  {
    assert n.Elem? && GroupBody(n.children, g, path + [g.name], sd, se);
    hide *;
    var path1 := path + [g.name];
    var sd1, se1 := sd + DimPaths(g.dims, path1), se + EnumPaths(g.enums, path1);
    RunGroup(p, n, g, path1, sd, se);
    var p1 := Start(p, DAP4_NS, "Group", map["name" := g.name]);
    EnterGroup(p, g, id, path, sd, se);
    var p3 := ReadUpToKids(p1, n.children, g, |p.heap.groups|, path1, sd, se);
    var kids := n.children[Lead(g)..];
    KidsToRead(p3, n.children, g, |p.heap.groups|, path1, sd, se);
    if g.groups == [] {
      RunNothing(p3);
      NoKidsOnTop(p, p1, p3, g);
    } else {
      LastOfGroups(p3, kids, g.groups, |p.heap.groups|, path1, sd1, se1);
      KidsOnTop(p, p1, p3, RunNodes(p3, kids), g);
    }
    ReadBody(p1, n.children, g, |p.heap.groups|, path1, sd, se);
    EndOnTop(p, p1, RunNodes(p1, n.children), g, path1, sd, se);
  }

  lemma RunGroup(p: Reader, n: Node, g: Group, path: seq<string>, sd: Paths, se: Paths)
    requires GroupDoc(n, g, path, sd, se)
    ensures RunNode(p, n)
      == End(RunNodes(Start(p, DAP4_NS, "Group", map["name" := g.name]), n.children), DAP4_NS, "Group")
  {
    hide Start, End, GroupBody;
  }

  lemma KidsToRead(p3: Reader, ns: seq<Node>, g: Group, id: Id, path: seq<string>, sd: Paths, se: Paths)
    requires GroupBody(ns, g, path, sd, se) && id < |p3.heap.groups| && p3.heap.groups[id].groups == []
    requires KidsHost(p3, id, path, sd + DimPaths(g.dims, path), se + EnumPaths(g.enums, path))
    ensures Linked(p3.heap.groups) && Lead(g) <= |ns| && |ns[Lead(g)..]| == |g.groups|
    ensures GroupDocs(ns[Lead(g)..], g.groups, path, sd + DimPaths(g.dims, path), se + EnumPaths(g.enums, path))
    ensures forall j :: 0 <= j < |g.groups| ==> NewName(p3.heap.groups, id, g.groups[j].name)
  {
    hide VarDocs, GroupDoc;
  }

  /** p1 has just entered the group that comes next in p. */
  predicate Entered(p: Reader, p1: Reader, name: string) {
    && |p1.heap.groups| == |p.heap.groups| + 1 && p1.heap.groups[|p.heap.groups|].name == name
    && p1.atts.Push? && p1.atts.top == |p.heap.tables|
    && p1.s.Push? && p1.s.top == InsideGroup && p1.grps.Push?
  }

  lemma EnterGroup(p: Reader, g: Group, id: Id, path: seq<string>, sd: Paths, se: Paths)
    requires KidsHost(p, id, path, sd, se) && GroupName(g.name) && NewName(p.heap.groups, id, g.name)
    ensures var p1 := Start(p, DAP4_NS, "Group", map["name" := g.name]);
      Entered(p, p1, g.name) && !p1.stopped && FreshGroup(p1, g, |p.heap.groups|, path + [g.name], sd, se)
  {
    hide Start, Known;
    StartGroup(p, g, id, path, sd, se);
  }

  lemma NoKidsOnTop(p: Reader, p1: Reader, p3: Reader, g: Group)
    requires Entered(p, p1, g.name) && BeforeKids(p1, p3, g, |p.heap.groups|) && g.groups == []
    ensures OnTop(p, p3, LastIn(g))
  {
  }

  lemma KidsOnTop(p: Reader, p1: Reader, p3: Reader, q: Reader, g: Group)
    requires Entered(p, p1, g.name) && BeforeKids(p1, p3, g, |p.heap.groups|) && g.groups != []
    requires OnTop(p3, q, LastIn(g.groups[|g.groups| - 1]))
    ensures OnTop(p, q, LastIn(g))
  {
  }

  lemma EndOnTop(p: Reader, p1: Reader, q: Reader, g: Group, path: seq<string>, sd: Paths, se: Paths)
    requires Entered(p, p1, g.name) && !p1.stopped && BodyRead(p1, q, g, |p.heap.groups|, path, sd, se)
    requires OnTop(p, q, LastIn(g))
    ensures OnTop(p, End(q, DAP4_NS, "Group"), LastIn(g))
  {
    hide GroupRep, Known, AttrsRep;
  }

  lemma DocsFirst(ns: seq<Node>, gs: seq<Group>, path: seq<string>, sd: Paths, se: Paths)
    requires GroupDocs(ns, gs, path, sd, se) && gs != []
    ensures |ns| == |gs| && GroupName(gs[0].name) && GroupDoc(ns[0], gs[0], path + [gs[0].name], sd, se)
    ensures forall i :: 0 < i < |gs| ==> gs[i].name != gs[0].name
    ensures GroupDocs(ns[1..], gs[1..], path, sd + AllDims(gs[0], path + [gs[0].name]),
                      se + AllEnums(gs[0], path + [gs[0].name]))
  {
    hide GroupDoc, AllDims, AllEnums;
  }

  lemma MoreAfterGroup(p: Reader, p1: Reader, g: Group, id: Id, path: seq<string>, sd: Paths, se: Paths)
    requires OneGroupRead(p, p1, g, id, path, sd, se)
    ensures |p.heap.groups| <= |p1.heap.groups| && |p.heap.tables| <= |p1.heap.tables|
  {
  }

  lemma RunFirst(p: Reader, ns: seq<Node>)
    requires ns != []
    ensures RunNodes(p, ns) == RunNodes(RunNode(p, ns[0]), ns[1..])
  {
    hide RunNode;
  }

  lemma TopFromLater(p: Reader, p1: Reader, q: Reader, g: Group)
    requires OnTop(p1, q, g) && |p.heap.groups| <= |p1.heap.groups| && |p.heap.tables| <= |p1.heap.tables|
    ensures OnTop(p, q, g)
  {
  }

  lemma RunNothing(p: Reader)
    ensures RunNodes(p, []) == p
  {
  }

  // ---------------------------------------------------------------- attributes after groups

  /** Where attributes land that stand after the groups gs. */
  function Receiver(p: Reader, q: Reader, gs: seq<Group>): Id
    requires p.atts.Push? && q.heap.groups != []
  {
    if gs == [] then p.atts.top else q.heap.groups[|q.heap.groups| - 1].attrs
  }

  function Holds(done: seq<Attr>, gs: seq<Group>): seq<Attr> {
    if gs == [] then done else LastIn(gs[|gs| - 1]).attrs
  }

  /** A group whose own attributes so far are `done`, and elements that describe its child
      groups gs. */
  predicate LateHost(p: Reader, ns: seq<Node>, gs: seq<Group>, done: seq<Attr>, id: Id, path: seq<string>,
                     sd: Paths, se: Paths) {
    && KidsHost(p, id, path, sd, se) && GroupDocs(ns, gs, path, sd, se)
    && (forall j :: 0 <= j < |gs| ==> NewName(p.heap.groups, id, gs[j].name))
    && p.atts.Push? && p.atts.top < |p.heap.tables|
    && AttrsRep(p.heap.tables, p.heap.tables[p.atts.top], done, p.atts.top + 1)
  }

  /** After the groups, the table on top is that of the last one. */
  lemma AfterGroups(p: Reader, ns: seq<Node>, gs: seq<Group>, done: seq<Attr>, id: Id, path: seq<string>,
                    sd: Paths, se: Paths)
    requires LateHost(p, ns, gs, done, id, path, sd, se)
    ensures var q := RunNodes(p, ns);
      && AttrHost(q) && p.heap.tables <= q.heap.tables
      && AttrsRep(q.heap.tables, q.heap.tables[q.atts.top], Holds(done, gs), q.atts.top + 1)
      && q.heap.groups != [] && q.atts.top == Receiver(p, q, gs)
      && (gs != [] ==> |p.heap.tables| <= q.atts.top)
  {
    hide RunNode, Start, End, DimKnown, EnumKnown, AttrsRep, GroupsRep, LastIn, GroupDoc;
    if gs == [] {
      RunNothing(p);
    } else {
      var ids := ReadGroups(p, ns, gs, id, path, sd, se);
      LastOfGroups(p, ns, gs, id, path, sd, se);
    }
  }

  /** Attributes that stand after child groups end up in the group that was entered last,
      in preorder; the group they are written in gets them if and only if it has no child
      groups before them. */
  lemma LateAttributes(p: Reader, ns: seq<Node>, gs: seq<Group>, attrs: seq<Attr>, done: seq<Attr>, id: Id,
                       path: seq<string>, sd: Paths, se: Paths)
    requires LateHost(p, ns, gs, done, id, path, sd, se) && attrs != [] && WfAttrs(Holds(done, gs) + attrs)
    ensures var q := RunNodes(p, ns + PrintAttrs(attrs)); var t := p.atts.top;
      && q.heap.groups != [] && Receiver(p, q, gs) < |q.heap.tables| && t < |q.heap.tables|
      && AttrsRep(q.heap.tables, q.heap.tables[Receiver(p, q, gs)], Holds(done, gs) + attrs, Receiver(p, q, gs) + 1)
      && (gs != [] ==> Receiver(p, q, gs) != t && q.heap.tables[t] == p.heap.tables[t])
      && (AttrsRep(q.heap.tables, q.heap.tables[t], done + attrs, t + 1) <==> gs == [])
  {
    hide RunNode, Start, End, DimKnown, EnumKnown, LastIn, KidsHost, NewName, GroupDocs, WfAttrs, RunNodes, AttrRep,
      PrintAttrs;
    RunNodesConcat(p, ns, PrintAttrs(attrs));
    AfterGroups(p, ns, gs, done, id, path, sd, se);
    ReadAttrs(RunNodes(p, ns), attrs, Holds(done, gs));
  }

  // ---------------------------------------------------------------- whatever the last group holds

  /** Attributes that the reader does not stop at, whatever their names and values. */
  predicate Readable(a: Attr)
    decreases a, 0
  {
    match a
    case Leaf(_, t, _) => t !in {ContainerA, OtherXmlA}
    case Container(_, attrs) => AllReadable(attrs)
  }

  predicate AllReadable(attrs: seq<Attr>)
    decreases attrs, 1
  {
    forall i :: 0 <= i < |attrs| ==> Readable(attrs[i])
  }

  /** Tables before `lo` are as they were. */
  predicate OldKept(a: Heap, b: Heap, lo: Id) {
    && a.vars == b.vars && a.groups == b.groups && lo <= |a.tables| <= |b.tables|
    && Above(b.tables, lo) && forall u :: 0 <= u < lo ==> b.tables[u] == a.tables[u]
  }

  predicate InAttribute(p: Reader, lo: Id) {
    && Ready(p) && p.s.top == InsideAttribute && p.atts.Push? && lo <= p.atts.top < |p.heap.tables|
    && Above(p.heap.tables, lo)
  }

  lemma ValueKeepsOld(p: Reader, v: string, lo: Id)
    requires InAttribute(p, lo)
    ensures var q := RunNode(p, Dap("Value", map[], [XmlStream.Text(v)]));
      q == p.(heap := q.heap) && OldKept(p.heap, q.heap, lo) && InAttribute(q, lo)
  {
    hide RunNode, GetAttr;
    ReadValue(p, v);
    GetAbove(p.heap.tables, p.atts.top, p.attrName, lo);
    ValueAbove(p.(charData := v), lo);
    hide Above;
  }

  lemma {:induction false} ValuesKeepOld(p: Reader, vs: seq<string>, lo: Id)
    requires InAttribute(p, lo)
    ensures var q := RunNodes(p, PrintValues(vs)); q == p.(heap := q.heap) && OldKept(p.heap, q.heap, lo)
    decreases |vs|
  {
    hide RunNode, RunNodes, Dap, Above;
    if vs == [] {
      RunNoValues(p);
    } else {
      RunFirstValue(p, vs);
      ValueKeepsOld(p, vs[0], lo);
      ValuesKeepOld(RunNode(p, Dap("Value", map[], [XmlStream.Text(vs[0])])), vs[1..], lo);
    }
  }

  lemma LeafKeepsOld(p: Reader, a: Attr, lo: Id)
    requires AttrHost(p) && lo <= p.atts.top && Above(p.heap.tables, lo) && a.Leaf? && Readable(a)
    ensures var q := RunNode(p, PrintAttr(a)); SameBut(p, q) && OldKept(p.heap, q.heap, lo)
  {
    StartAttribute(p, map["name" := a.name, "type" := AttrTypeName(a.typ)]);
    AttrTypeNames(a.typ);
    hide AttrTypeName, AttrTypeOf, PrintValues, Above;
    var p1 := Enter(p, InsideAttribute).(attrName := a.name, attrType := AttrTypeName(a.typ));
    ValuesKeepOld(p1, a.values, lo);
    var p2 := RunNodes(p1, PrintValues(a.values));
    assert End(p2, DAP4_NS, "Attribute") == p2.(s := p.s);
  }

  lemma {:induction false} AttrKeepsOld(p: Reader, a: Attr, lo: Id)
    requires AttrHost(p) && lo <= p.atts.top && Above(p.heap.tables, lo) && Readable(a)
    ensures var q := RunNode(p, PrintAttr(a)); SameBut(p, q) && OldKept(p.heap, q.heap, lo)
    decreases a, 0
  {
    if a.Leaf? {
      LeafKeepsOld(p, a, lo);
    } else {
      assert AllReadable(a.attrs);
      var xa := map["name" := a.name, "type" := "Container"];
      RunContainer(p, a);
      StartContainer(p, a.name);
      StartAbove(p, DAP4_NS, "Attribute", xa, lo);
      hide RunNode, RunNodes, Start, PrintAttr, PrintAttrs, Readable, AllReadable, AttrsRep, Above;
      var p1 := Start(p, DAP4_NS, "Attribute", xa);
      AttrsKeepOld(p1, a.attrs, lo);
      var p2 := RunNodes(p1, PrintAttrs(a.attrs));
      assert End(p2, DAP4_NS, "Attribute") == p2.(s := p.s, atts := p.atts);
    }
  }

  lemma {:induction false} AttrsKeepOld(p: Reader, attrs: seq<Attr>, lo: Id)
    requires AttrHost(p) && lo <= p.atts.top && Above(p.heap.tables, lo) && AllReadable(attrs)
    ensures var q := RunNodes(p, PrintAttrs(attrs)); SameBut(p, q) && OldKept(p.heap, q.heap, lo)
    decreases attrs, 1
  {
    if attrs != [] {
      assert Readable(attrs[0]) && AllReadable(attrs[1..]);
      RunOne(p, PrintAttr(attrs[0]), PrintAttrs(attrs[1..]));
      hide RunNode, PrintAttr, Readable, AllReadable, Above;
      AttrKeepsOld(p, attrs[0], lo);
      AttrsKeepOld(RunNode(p, PrintAttr(attrs[0])), attrs[1..], lo);
    }
  }

  /** Whatever their names and values, and even if they clash with what the last group holds,
      attributes that are printed after a child group leave the table of the group they are
      written in, and every other older table, as it was. */
  lemma LateAttributesLost(p: Reader, ns: seq<Node>, gs: seq<Group>, attrs: seq<Attr>, done: seq<Attr>, id: Id,
                           path: seq<string>, sd: Paths, se: Paths)
    requires LateHost(p, ns, gs, done, id, path, sd, se) && gs != [] && AllReadable(attrs)
    ensures var q := RunNodes(p, ns + PrintAttrs(attrs));
      p.atts.top < |p.heap.tables| <= |q.heap.tables|
      && forall u :: 0 <= u < |p.heap.tables| ==> q.heap.tables[u] == p.heap.tables[u]
  {
    hide RunNode, Start, End, DimKnown, EnumKnown, LastIn, KidsHost, NewName, GroupDocs, RunNodes, AttrRep, Above;
    RunNodesConcat(p, ns, PrintAttrs(attrs));
    AfterGroups(p, ns, gs, done, id, path, sd, se);
    MadeSince(p, ns);
    AttrsKeepOld(RunNodes(p, ns), attrs, |p.heap.tables|);
  }
}
