/** Reading printed variables: extents, attributes and members. */
module DmrReadVars {
  import opened Wrappers
  import opened Text
  import opened DmrTree
  import opened XmlStream
  import opened DmrPrinter
  import opened D4Heap
  import opened D4Parser
  import opened DmrRep
  import opened DmrLookup
  import opened DmrReadAttrs

  // ---------------------------------------------------------------- elements and what they say

  /** The group from which a name is looked up: the root for an absolute one. */
  function From(g: Id, name: string): Id { if name != [] && name[0] == '/' then ROOT else g }

  /** A Dim element inside group g that says d: a name leads to a dimension of that path. */
  predicate SaysDim(gs: seq<GroupObj>, g: Id, n: Node, d: Dim) {
    match d
    case Sized(k) => 0 <= k < TWO_TO_31 && n == PrintDim(d)
    case Named(path) =>
      && n.Elem? && "name" in n.xattrs && n == Dap("Dim", map["name" := n.xattrs["name"]], [])
      && var r := FindDim(gs, From(g, n.xattrs["name"]), n.xattrs["name"]);
         r.Found? && DimRefRep(gs, r.ref, path)
  }

  predicate SaysDims(gs: seq<GroupObj>, g: Id, ns: seq<Node>, ds: seq<Dim>) {
    |ns| == |ds| && forall i :: 0 <= i < |ds| ==> SaysDim(gs, g, ns[i], ds[i])
  }

  /** The start tag of v inside group g; the enumeration it names is one of that path. */
  predicate SaysTag(gs: seq<GroupObj>, g: Id, xa: XmlAttrs, v: Var) {
    match v
    case Ctor(_, n, _, _, _) => xa == map["name" := n]
    case Simple(t, n, path, _, _) =>
      && IsSimpleType(t)
      && if t == EnumT then
           && "enum" in xa && xa == map["name" := n, "enum" := xa["enum"]]
           && var r := FindEnumDef(gs, From(g, xa["enum"]), xa["enum"]);
              r.Found? && EnumRefRep(gs, r.ref, path)
         else xa == map["name" := n] && path == []
  }

  /** How many children of its element are members. */
  function MemberCount(v: Var): nat { if v.Ctor? then |v.members| else 0 }

  function MemberPart(n: Node, v: Var): seq<Node>
    requires n.Elem? && MemberCount(v) <= |n.children|
  {
    n.children[..MemberCount(v)]
  }

  function DimPart(n: Node, v: Var): seq<Node>
    requires n.Elem? && MemberCount(v) + |v.dims| <= |n.children|
  {
    n.children[MemberCount(v)..MemberCount(v) + |v.dims|]
  }

  /** An element inside group g that says v: members, then extents, then attributes.  An
      array's name goes through WWW decoding, so it may not contain an escape. */
  predicate SaysVar(gs: seq<GroupObj>, g: Id, n: Node, v: Var)
    decreases v, 0
  {
    && n.Elem? && n.uri == DAP4_NS && n.name == VarTag(v) && SaysTag(gs, g, n.xattrs, v)
    && v.name != "" && (v.dims != [] ==> Free(v.name, '%')) && WfAttrs(v.attrs)
    && MemberCount(v) + |v.dims| <= |n.children|
    && (v.Ctor? ==> SaysVars(gs, g, MemberPart(n, v), v.members))
    && SaysDims(gs, g, DimPart(n, v), v.dims)
    && n.children[MemberCount(v) + |v.dims|..] == PrintAttrs(v.attrs)
  }

  predicate SaysVars(gs: seq<GroupObj>, g: Id, ns: seq<Node>, vs: seq<Var>)
    decreases vs, 1
  {
    |ns| == |vs| && forall i :: 0 <= i < |vs| ==> SaysVar(gs, g, ns[i], vs[i])
  }

  lemma SaysDimsGrow(a: seq<GroupObj>, b: seq<GroupObj>, g: Id, ns: seq<Node>, ds: seq<Dim>)
    requires GroupsGrow(a, b) && Linked(a) && SaysDims(a, g, ns, ds)
    ensures SaysDims(b, g, ns, ds)
  {
    forall i | 0 <= i < |ds| ensures SaysDim(b, g, ns[i], ds[i]) {
      assert SaysDim(a, g, ns[i], ds[i]);
      if ds[i].Named? {
        var s := ns[i].xattrs["name"];
        FindDimGrows(a, b, From(g, s), s);
        PathStable(a, b, FindDim(a, From(g, s), s).ref.group);
      }
    }
  }

  lemma SaysTagGrows(a: seq<GroupObj>, b: seq<GroupObj>, g: Id, xa: XmlAttrs, v: Var)
    requires GroupsGrow(a, b) && Linked(a) && SaysTag(a, g, xa, v)
    ensures SaysTag(b, g, xa, v)
  {
    if v.Simple? && v.typ == EnumT {
      var s := xa["enum"];
      FindEnumGrows(a, b, From(g, s), s);
      PathStable(a, b, FindEnumDef(a, From(g, s), s).ref.group);
    }
  }

  /** What an element says does not change as groups grow. */
  lemma {:induction false} SaysVarsGrow(a: seq<GroupObj>, b: seq<GroupObj>, g: Id, ns: seq<Node>, vs: seq<Var>)
    requires GroupsGrow(a, b) && Linked(a) && SaysVars(a, g, ns, vs)
    ensures SaysVars(b, g, ns, vs)
    decreases vs
  {
    hide SaysTag, SaysDims, GroupsGrow, Linked;
    forall i | 0 <= i < |vs| ensures SaysVar(b, g, ns[i], vs[i]) {
      var n, v := ns[i], vs[i];
      assert SaysVar(a, g, n, v);
      SaysTagGrows(a, b, g, n.xattrs, v);
      SaysDimsGrow(a, b, g, DimPart(n, v), v.dims);
      if v.Ctor? { SaysVarsGrow(a, b, g, MemberPart(n, v), v.members); }
    }
  }

  // ---------------------------------------------------------------- extents

  lemma DimTag()
    ensures "Dim" != "Attribute" && GetType("Dim") == NullT
  {
  }

  predicate DimHost(p: Reader) {
    Ready(p) && p.s.top in {InsideSimpleType, InsideConstructor} && p.btps.Push? && p.btps.top < |p.heap.vars|
    && p.grps.Push?
  }

  function Arrayed(p: Reader): Reader
    requires p.btps.Push? && p.btps.top < |p.heap.vars|
  {
    if p.heap.vars[p.btps.top].ArrayObj? then p
    else p.(heap := MakeArray(p.heap, p.btps.top), btps := Push(|p.heap.vars|, p.btps.rest))
  }

  lemma StartDim(p: Reader, xa: XmlAttrs)
    requires DimHost(p)
    ensures var (q, ok) := ProcessDimension(p, "Dim", xa);
      Start(p, DAP4_NS, "Dim", xa) == if ok then Enter(q, InsideDim) else Err(q)
  {
    DimTag();
  }

  lemma DimElement(p: Reader, xa: XmlAttrs, q: Reader)
    requires DimHost(p) && ProcessDimension(p, "Dim", xa) == (q, true) && q.s == p.s && !q.stopped
    ensures RunNode(p, Dap("Dim", xa, [])) == q
  {
    hide Start, ProcessDimension;
    StartDim(p, xa);
    var q1 := Enter(q, InsideDim);
    assert RunNodes(q1, []) == q1;
    assert End(q1, DAP4_NS, "Dim") == q;
  }

  function PlusDim(p: Reader, o: DimObj): Reader
    requires p.btps.Push? && p.btps.top < |p.heap.vars|
  {
    AppendDim(Arrayed(p), Arrayed(p).btps.top, o)
  }

  /** One Dim element makes the variable an array if need be and appends what it says. */
  lemma ReadDim(p: Reader, n: Node, d: Dim) returns (o: DimObj)
    requires DimHost(p) && SaysDim(p.heap.groups, p.grps.top, n, d)
    ensures DimRep(p.heap.groups, o, d)
    ensures RunNode(p, n) == PlusDim(p, o)
  {
    match d
    case Sized(k) =>
      ReadersInvertShow(k);
      o := Local(k, "");
      var xa := map["size" := ShowInt(k)];
      assert "name" !in xa;
      DimElement(p, xa, PlusDim(p, o));
    case Named(path) =>
      var s := n.xattrs["name"];
      o := Shared(FindDim(p.heap.groups, From(p.grps.top, s), s).ref);
      var xa := map["name" := s];
      assert "size" !in xa;
      DimElement(p, xa, PlusDim(p, o));
  }

  lemma {:induction false} ReadMoreDims(p: Reader, ns: seq<Node>, dims: seq<Dim>) returns (os: seq<DimObj>)
    requires DimHost(p) && p.heap.vars[p.btps.top].ArrayObj?
    requires SaysDims(p.heap.groups, p.grps.top, ns, dims)
    ensures DimsRep(p.heap.groups, os, dims)
    ensures var a := p.btps.top; var o := p.heap.vars[a];
      RunNodes(p, ns) == p.(heap := WithVar(p.heap, a, o.(dims := o.dims + os)))
    decreases |dims|
  {
    hide RunNode, Start, End, ProcessDimension, SaysDim, DimRep;
    var a := p.btps.top;
    var o := p.heap.vars[a];
    if dims == [] {
      os := [];
      assert o.dims + [] == o.dims && p.heap.vars[a := o] == p.heap.vars;
    } else {
      var d := ReadDim(p, ns[0], dims[0]);
      var p1 := PlusDim(p, d);
      assert ns == [ns[0]] + ns[1..];
      RunOne(p, ns[0], ns[1..]);
      var rest := ReadMoreDims(p1, ns[1..], dims[1..]);
      os := [d] + rest;
      assert o.dims + [d] + rest == o.dims + os;
      assert p1.heap.vars[a := o.(dims := o.dims + os)] == p.heap.vars[a := o.(dims := o.dims + os)];
    }
  }

  /** The heap with variable b turned into the prototype of an array with these extents. */
  function ArrayOver(h: Heap, b: Id, os: seq<DimObj>): Heap
    requires b < |h.vars|
  {
    h.(vars := h.vars[b := h.vars[b].(attrs := None)]
               + [ArrayObj(h.vars[b].name, b, os, h.vars[b].attrs)])
  }

  lemma FirstDim(p: Reader, d: DimObj)
    requires DimHost(p) && !p.heap.vars[p.btps.top].ArrayObj? && Free(p.heap.vars[p.btps.top].name, '%')
    ensures PlusDim(p, d) ==
      p.(heap := ArrayOver(p.heap, p.btps.top, [d]), btps := Push(|p.heap.vars|, p.btps.rest))
  {
    Www2IdPlain(p.heap.vars[p.btps.top].name);
    assert [] + [d] == [d];
    assert PlusDim(p, d).heap.vars == ArrayOver(p.heap, p.btps.top, [d]).vars;
  }

  /** Dim elements turn the current variable into an array whose prototype it becomes and whose
      extents stand for what the elements say. */
  lemma ReadDims(p: Reader, ns: seq<Node>, dims: seq<Dim>) returns (os: seq<DimObj>)
    requires DimHost(p) && !p.heap.vars[p.btps.top].ArrayObj? && dims != []
    requires Free(p.heap.vars[p.btps.top].name, '%') && SaysDims(p.heap.groups, p.grps.top, ns, dims)
    ensures DimsRep(p.heap.groups, os, dims)
    ensures RunNodes(p, ns) ==
      p.(heap := ArrayOver(p.heap, p.btps.top, os), btps := Push(|p.heap.vars|, p.btps.rest))
  {
    hide RunNode, Start, End, ProcessDimension, SaysDim, DimRep;
    var b := p.btps.top;
    var a := |p.heap.vars|;
    var d := ReadDim(p, ns[0], dims[0]);
    FirstDim(p, d);
    var p1 := p.(heap := ArrayOver(p.heap, b, [d]), btps := Push(a, p.btps.rest));
    assert ns == [ns[0]] + ns[1..];
    RunOne(p, ns[0], ns[1..]);
    var rest := ReadMoreDims(p1, ns[1..], dims[1..]);
    os := [d] + rest;
    assert p1.heap.vars[a := p1.heap.vars[a].(dims := os)] == ArrayOver(p.heap, b, os).vars;
  }

  // ---------------------------------------------------------------- attaching

  /** The heap with these variables appended to the members of the parent. */
  function AddKids(h: Heap, parent: Parent, ids: seq<Id>): Heap
    requires ValidParent(h, parent) && (parent.InVar? ==> h.vars[parent.v].CtorObj?)
  {
    match parent
    case InGroup(g) => WithGroup(h, g, h.groups[g].(vars := h.groups[g].vars + ids))
    case InVar(v) => WithVar(h, v, h.vars[v].(members := h.vars[v].members + ids))
  }

  /** b has everything a has, and possibly more variables and tables. */
  predicate HeapExtends(a: Heap, b: Heap) {
    a.groups == b.groups && a.vars <= b.vars && a.tables <= b.tables
  }

  /** A state in which a variable may start. */
  predicate StartHost(p: Reader) {
    Ready(p) && p.grps.Push? && p.s.top in {InsideDataset, InsideGroup, InsideConstructor}
  }

  /** A state in which a variable may start inside this parent. */
  predicate VarHost(p: Reader, parent: Parent) {
    && Ready(p) && p.grps.Push? && ValidParent(p.heap, parent) && CurrentParent(p) == Some(parent)
    && match parent
       case InGroup(_) => p.s.top in {InsideDataset, InsideGroup}
       case InVar(v) => p.s.top == InsideConstructor && p.heap.vars[v].CtorObj?
  }

  // ---------------------------------------------------------------- start and end tags

  lemma NotVariableTags()
    ensures GetType("Enumeration") == NullT && GetType("Dimension") == NullT && GetType("Group") == NullT
  {
    assert "Enumeration"[0] == 'E' && "Dimension"[0] == 'D' && "Group"[2] == 'o';
  }

  function StateOf(v: Var): ParseState { if v.Ctor? then InsideConstructor else InsideSimpleType }

  function NewObj(p: Reader, v: Var, e: Option<DefRef>): VarObj {
    match v
    case Simple(t, n, _, _, _) => SimpleObj(t, n, e, Some(|p.heap.tables|))
    case Ctor(s, n, _, _, _) => CtorObj(s, n, [], Some(|p.heap.tables|))
  }

  function Opened(p: Reader, v: Var, o: VarObj): Reader {
    Enter(p.(heap := p.heap.(vars := p.heap.vars + [o], tables := p.heap.tables + [[]]),
             btps := Push(|p.heap.vars|, p.btps), atts := Push(|p.heap.tables|, p.atts)), StateOf(v))
  }

  lemma VarTagType(v: Var)
    requires v.Simple? ==> IsSimpleType(v.typ)
    ensures var t := GetType(VarTag(v));
      if v.Simple? then t == v.typ else t == if v.sequence then SequenceT else StructureT
    ensures VarTag(v) != "Enumeration" && VarTag(v) != "Dimension" && VarTag(v) != "Group"
  {
    NotVariableTags();
    if v.Simple? {
      TypeNameReads(v.typ);
    } else {
      TypeNameReads(SequenceT);
      TypeNameReads(StructureT);
    }
  }

  lemma StartVariable(p: Reader, tag: string, xa: XmlAttrs)
    requires StartHost(p)
    requires tag != "Enumeration" && tag != "Dimension" && tag != "Group"
    requires IsSimpleType(GetType(tag)) || GetType(tag) in {StructureT, SequenceT}
    ensures Start(p, DAP4_NS, tag, xa) == ProcessVariable(p, tag, xa).0
  {
  }

  /** The object of a variable that has just started. */
  predicate Begun(p: Reader, v: Var, o: VarObj) {
    && o.name == v.name && o.attrs == Some(|p.heap.tables|)
    && match v
       case Simple(t, _, path, _, _) =>
         && o.SimpleObj? && o.typ == t
         && if t == EnumT then o.enumDef.Some? && EnumRefRep(p.heap.groups, o.enumDef.value, path)
            else o.enumDef.None? && path == []
       case Ctor(s, _, _, _, _) => o.CtorObj? && o.sequence == s && o.members == []
  }

  lemma StartVar(p: Reader, xa: XmlAttrs, v: Var) returns (o: VarObj)
    requires StartHost(p) && SaysTag(p.heap.groups, p.grps.top, xa, v)
    ensures Start(p, DAP4_NS, VarTag(v), xa) == Opened(p, v, o)
    ensures Begun(p, v, o)
  {
    hide Start, GetType, TypeName, FindEnumDef, EnumRefRep;
    VarTagType(v);
    StartVariable(p, VarTag(v), xa);
    var e: Option<DefRef> := None;
    if v.Simple? && v.typ == EnumT {
      var s := xa["enum"];
      e := Some(FindEnumDef(p.heap.groups, From(p.grps.top, s), s).ref);
    }
    o := NewObj(p, v, e);
  }

  lemma EndVar(q: Reader, p: Reader, v: Var, parent: Parent, id: Id)
    requires v.Simple? ==> IsSimpleType(v.typ)
    requires !q.stopped && q.s == Push(StateOf(v), p.s) && q.grps == p.grps
    requires q.btps == Push(id, p.btps) && q.atts.Push? && q.atts.rest == p.atts
    requires CurrentParent(p) == Some(parent) && ValidParent(q.heap, parent)
    requires parent.InVar? ==> q.heap.vars[parent.v].CtorObj?
    ensures End(q, DAP4_NS, VarTag(v)) ==
      q.(heap := AddKids(q.heap, parent, [id]), s := p.s, btps := p.btps, atts := p.atts)
  {
    VarTagType(v);
  }

  // ---------------------------------------------------------------- the whole variable

  /** The reader inside variable v, whose object is b and whose table is t, when its members
      are read but not its extents and attributes. */
  predicate MembersRead(p: Reader, p2: Reader, v: Var, o: VarObj) {
    var b, t := |p.heap.vars|, |p.heap.tables|;
    && SameBut(Opened(p, v, o), p2) && HeapExtends(p.heap, p2.heap)
    && b < |p2.heap.vars| && t < |p2.heap.tables| && p2.heap.tables[t] == []
    && !p2.heap.vars[b].ArrayObj? && p2.heap.vars[b].name == v.name && p2.heap.vars[b].attrs == Some(t)
    && CoreRep(p2.heap, p2.heap.vars[b], v, b + 1, t + 1)
  }

  lemma AddKidsGrows(h: Heap, parent: Parent, ids: seq<Id>)
    requires ValidParent(h, parent) && (parent.InVar? ==> h.vars[parent.v].CtorObj?)
    ensures GroupsGrow(h.groups, AddKids(h, parent, ids).groups)
    ensures Linked(h.groups) ==> Linked(AddKids(h, parent, ids).groups)
  {
  }

  lemma SaidAfterKids(h: Heap, parent: Parent, ids: seq<Id>, g: Id, ns: seq<Node>, vs: seq<Var>)
    requires ValidParent(h, parent) && (parent.InVar? ==> h.vars[parent.v].CtorObj?)
    requires Linked(h.groups) && SaysVars(h.groups, g, ns, vs)
    ensures var gs := AddKids(h, parent, ids).groups; Linked(gs) && SaysVars(gs, g, ns, vs)
  {
    AddKidsGrows(h, parent, ids);
    SaysVarsGrow(h.groups, AddKids(h, parent, ids).groups, g, ns, vs);
  }

  /** Inside a constructor, members can start. */
  lemma InsideReady(p: Reader, n: Node, v: Var, o: VarObj)
    requires StartHost(p) && SaysVar(p.heap.groups, p.grps.top, n, v) && Begun(p, v, o) && v.Ctor?
    ensures VarHost(Opened(p, v, o), InVar(|p.heap.vars|))
    ensures SaysVars(p.heap.groups, p.grps.top, MemberPart(n, v), v.members)
    ensures Opened(p, v, o).heap.groups == p.heap.groups && Opened(p, v, o).grps == p.grps
  {
  }

  lemma MembersDone(p: Reader, p2: Reader, v: Var, o: VarObj, ids: seq<Id>)
    requires Begun(p, v, o) && v.Ctor?
    requires var p1 := Opened(p, v, o); var b := InVar(|p.heap.vars|);
      && SameBut(p1, p2) && HeapExtends(AddKids(p1.heap, b, ids), p2.heap)
      && VarsRep(p2.heap, ids, v.members, |p1.heap.vars|, |p1.heap.tables|)
    ensures MembersRead(p, p2, v, o) && p2.heap.groups == p.heap.groups
  {
    hide VarRep;
    var p1 := Opened(p, v, o);
    assert [] + ids == ids;
    assert p2.heap.vars[|p.heap.vars|] == AddKids(p1.heap, InVar(|p.heap.vars|), ids).vars[|p.heap.vars|];
    assert p2.heap.tables[|p.heap.tables|] == p1.heap.tables[|p.heap.tables|];
  }

  lemma NoMembers(p: Reader, n: Node, v: Var, o: VarObj)
    requires Begun(p, v, o) && v.Simple? && n.Elem?
    ensures RunNodes(Opened(p, v, o), MemberPart(n, v)) == Opened(p, v, o)
    ensures MembersRead(p, Opened(p, v, o), v, o) && Opened(p, v, o).heap.groups == p.heap.groups
  {
    assert Opened(p, v, o).heap.vars[|p.heap.vars|] == o;
  }

  lemma {:induction false} ReadMembers(p: Reader, n: Node, v: Var, o: VarObj) returns (p2: Reader)
    requires StartHost(p) && SaysVar(p.heap.groups, p.grps.top, n, v) && Linked(p.heap.groups)
    requires Begun(p, v, o)
    ensures p2 == RunNodes(Opened(p, v, o), MemberPart(n, v)) && MembersRead(p, p2, v, o)
    ensures Ready(p) && p2.heap.groups == p.heap.groups
    decreases v, 0
  {
    assert Ready(p) && n.Elem? && MemberCount(v) <= |n.children|;
    hide *;
    p2 := RunNodes(Opened(p, v, o), MemberPart(n, v));
    if v.Ctor? {
      InsideReady(p, n, v, o);
      var ids := ReadVars(Opened(p, v, o), MemberPart(n, v), v.members, InVar(|p.heap.vars|));
      MembersDone(p, p2, v, o, ids);
    } else {
      NoMembers(p, n, v, o);
    }
  }

  lemma DimsDone(h: Heap, v: Var, b: Id, t: Id, os: seq<DimObj>)
    requires b < |h.vars| && !h.vars[b].ArrayObj? && CoreRep(h, h.vars[b], v, b + 1, t + 1)
    ensures var h3 := ArrayOver(h, b, os); CoreRep(h3, h3.vars[b], v, b + 1, t + 1)
  {
    var h3 := ArrayOver(h, b, os);
    CoreStable(h, h3, h.vars[b], v, b + 1, t + 1);
  }

  /** Extents and attributes complete the variable. */
  lemma ReadTail(p: Reader, p2: Reader, n: Node, v: Var, o: VarObj) returns (id: Id)
    requires MembersRead(p, p2, v, o) && Ready(p) && p.grps.Push? && SaysVar(p.heap.groups, p.grps.top, n, v)
    requires p2.heap.groups == p.heap.groups
    ensures var q := RunNodes(RunNodes(p2, DimPart(n, v)), PrintAttrs(v.attrs));
      && SameBut(Opened(p, v, o).(btps := Push(id, p.btps)), q)
      && HeapExtends(p.heap, q.heap) && Complete(p, q, v, id)
  {
    hide RunNode, Start, End, VarRep, SaysTag, SaysDim, SaysVars, DimRep, PrintAttrs;
    var b, t := |p.heap.vars|, |p.heap.tables|;
    var p3 := p2;
    var os := [];
    id := b;
    if v.dims == [] {
      assert RunNodes(p2, DimPart(n, v)) == p2;
    } else {
      os := ReadDims(p2, DimPart(n, v), v.dims);
      id := |p2.heap.vars|;
      p3 := p2.(heap := ArrayOver(p2.heap, b, os), btps := Push(id, p2.btps.rest));
      DimsDone(p2.heap, v, b, t, os);
    }
    assert CoreRep(p3.heap, p3.heap.vars[b], v, b + 1, t + 1);
    assert [] + v.attrs == v.attrs;
    ReadAttrs(p3, v.attrs, []);
    var q := RunNodes(p3, PrintAttrs(v.attrs));
    TailRep(p3.heap, q.heap, v, b, t, id, os);
    CoreStable(p3.heap, q.heap, p3.heap.vars[b], v, b + 1, t + 1);
  }

  /** Everything about v has been read; the variable proper is the first object that was made for
      it, and id is that object or the array over it. */
  predicate Complete(p: Reader, q: Reader, v: Var, id: Id) {
    var b, t := |p.heap.vars|, |p.heap.tables|;
    && VarRep(q.heap, id, v, b, t) && b <= id < |q.heap.vars| && CoreRep(q.heap, q.heap.vars[b], v, b + 1, t + 1)
    && (if v.dims == [] then id == b else q.heap.vars[id].ArrayObj? && q.heap.vars[id].proto == b)
  }

  lemma TailRep(a: Heap, h: Heap, v: Var, b: Id, t: Id, id: Id, os: seq<DimObj>)
    requires b < |a.vars| && CoreRep(a, a.vars[b], v, b + 1, t + 1)
    requires TableExtended(a, h, t, v.attrs)
    requires b <= id < |a.vars| && a.vars[id].attrs == Some(t)
    requires if v.dims == [] then id == b
             else a.vars[id] == ArrayObj(v.name, b, os, Some(t)) && a.vars[b].attrs.None?
                  && DimsRep(a.groups, os, v.dims)
    ensures VarRep(h, id, v, b, t)
  {
    CoreStable(a, h, a.vars[b], v, b + 1, t + 1);
    if v.Ctor? { VarsWeaken(h, h.vars[b].members, v.members, b + 1, t + 1, b, t); }
    assert CoreRep(h, h.vars[b], v, b, t);
    assert TableRep(h.tables, t, v.attrs, t);
  }

  lemma RunVar(p: Reader, gs: seq<GroupObj>, g: Id, n: Node, v: Var)
    requires SaysVar(gs, g, n, v)
    ensures RunNode(p, n)
      == End(RunNodes(RunNodes(RunNodes(Start(p, DAP4_NS, VarTag(v), n.xattrs), MemberPart(n, v)), DimPart(n, v)),
                      PrintAttrs(v.attrs)), DAP4_NS, VarTag(v))
  {
    hide Start, End, VarTag, SaysTag, PrintAttrs, SaysVars, SaysDims;
    RunParts(Start(p, DAP4_NS, VarTag(v), n.xattrs), n.children, MemberCount(v), MemberCount(v) + |v.dims|);
  }

  /** Reading three parts of a list is reading the list. */
  lemma RunParts(p: Reader, ns: seq<Node>, i: nat, j: nat)
    requires i <= j <= |ns|
    ensures RunNodes(p, ns) == RunNodes(RunNodes(RunNodes(p, ns[..i]), ns[i..j]), ns[j..])
  {
    hide RunNodes;
    assert ns == ns[..j] + ns[j..] && ns[..j] == ns[..i] + ns[i..j];
    RunNodesConcat(p, ns[..j], ns[j..]);
    RunNodesConcat(p, ns[..i], ns[i..j]);
  }

  lemma CloseVar(p: Reader, q: Reader, v: Var, o: VarObj, parent: Parent, id: Id)
    requires VarHost(p, parent) && (v.Simple? ==> IsSimpleType(v.typ))
    requires SameBut(Opened(p, v, o).(btps := Push(id, p.btps)), q) && HeapExtends(p.heap, q.heap)
    requires VarRep(q.heap, id, v, |p.heap.vars|, |p.heap.tables|)
    ensures var r := End(q, DAP4_NS, VarTag(v));
      && SameBut(p, r) && HeapExtends(AddKids(p.heap, parent, [id]), r.heap)
      && VarRep(r.heap, id, v, |p.heap.vars|, |p.heap.tables|)
  {
    hide End, VarRep, VarTag;
    EndVar(q, p, v, parent, id);
    AddKidsGrows(q.heap, parent, [id]);
    VarStable(q.heap, AddKids(q.heap, parent, [id]), id, v, |p.heap.vars|, |p.heap.tables|);
  }

  lemma SaidSimple(gs: seq<GroupObj>, g: Id, n: Node, v: Var)
    requires SaysVar(gs, g, n, v)
    ensures v.Simple? ==> IsSimpleType(v.typ)
    ensures n.Elem? && MemberCount(v) + |v.dims| <= |n.children| && SaysTag(gs, g, n.xattrs, v)
  {
  }

  /** Up to its end tag, an element that says v makes v. */
  lemma {:induction false} ReadUpToEnd(p: Reader, n: Node, v: Var) returns (id: Id, o: VarObj, q: Reader)
    requires StartHost(p) && SaysVar(p.heap.groups, p.grps.top, n, v) && Linked(p.heap.groups)
    ensures RunNode(p, n) == End(q, DAP4_NS, VarTag(v))
    ensures SameBut(Opened(p, v, o).(btps := Push(id, p.btps)), q) && HeapExtends(p.heap, q.heap)
    ensures Complete(p, q, v, id) && (v.Simple? ==> IsSimpleType(v.typ))
    decreases v, 1
  {
    assert p.grps.Push? && Ready(p);
    hide *;
    RunVar(p, p.heap.groups, p.grps.top, n, v);
    SaidSimple(p.heap.groups, p.grps.top, n, v);
    o := StartVar(p, n.xattrs, v);
    var p2 := ReadMembers(p, n, v, o);
    id := ReadTail(p, p2, n, v, o);
    q := RunNodes(RunNodes(p2, DimPart(n, v)), PrintAttrs(v.attrs));
  }

  lemma HostStarts(p: Reader, parent: Parent)
    requires VarHost(p, parent)
    ensures StartHost(p)
  {
  }

  lemma CompleteRep(p: Reader, q: Reader, v: Var, id: Id)
    requires Complete(p, q, v, id)
    ensures VarRep(q.heap, id, v, |p.heap.vars|, |p.heap.tables|)
  {
  }

  /** Reading an element that says v adds exactly one variable to the parent, and that variable
      stands for v. */
  lemma {:induction false} ReadVar(p: Reader, n: Node, v: Var, parent: Parent) returns (id: Id)
    requires VarHost(p, parent) && SaysVar(p.heap.groups, p.grps.top, n, v) && Linked(p.heap.groups)
    ensures var q := RunNode(p, n);
      && SameBut(p, q) && HeapExtends(AddKids(p.heap, parent, [id]), q.heap)
      && VarRep(q.heap, id, v, |p.heap.vars|, |p.heap.tables|)
    decreases v, 2
  {
    assert p.grps.Push?;
    hide *;
    HostStarts(p, parent);
    var o, q;
    id, o, q := ReadUpToEnd(p, n, v);
    CompleteRep(p, q, v, id);
    CloseVar(p, q, v, o, parent, id);
  }

  /** The same for a list of variables. */
  lemma {:induction false} ReadVars(p: Reader, ns: seq<Node>, vs: seq<Var>, parent: Parent) returns (ids: seq<Id>)
    requires VarHost(p, parent) && SaysVars(p.heap.groups, p.grps.top, ns, vs) && Linked(p.heap.groups)
    ensures var q := RunNodes(p, ns);
      && SameBut(p, q) && HeapExtends(AddKids(p.heap, parent, ids), q.heap)
      && VarsRep(q.heap, ids, vs, |p.heap.vars|, |p.heap.tables|)
    decreases vs, 3
  {
    hide RunNode, Start, End, SaysVar, VarRep;
    if vs == [] {
      ids := [];
      NoKids(p.heap, parent);
    } else {
      assert ns == [ns[0]] + ns[1..];
      var id := ReadVar(p, ns[0], vs[0], parent);
      var p1 := RunNode(p, ns[0]);
      SaidAfterKids(p.heap, parent, [id], p.grps.top, ns[1..], vs[1..]);
      RunOne(p, ns[0], ns[1..]);
      var rest := ReadVars(p1, ns[1..], vs[1..], parent);
      ids := [id] + rest;
      var q := RunNodes(p1, ns[1..]);
      MoreKids(p.heap, p1.heap, q.heap, parent, id, rest, vs);
    }
  }

  lemma NoKids(h: Heap, parent: Parent)
    requires ValidParent(h, parent) && (parent.InVar? ==> h.vars[parent.v].CtorObj?)
    ensures AddKids(h, parent, []) == h
  {
    match parent
    case InGroup(g) =>
      assert h.groups[g].vars + [] == h.groups[g].vars && h.groups[g := h.groups[g]] == h.groups;
    case InVar(v) =>
      assert h.vars[v].members + [] == h.vars[v].members && h.vars[v := h.vars[v]] == h.vars;
  }

  lemma KidsInTurn(a: Heap, b: Heap, c: Heap, parent: Parent, id: Id, rest: seq<Id>)
    requires ValidParent(a, parent) && (parent.InVar? ==> a.vars[parent.v].CtorObj?)
    requires ValidParent(b, parent) && (parent.InVar? ==> b.vars[parent.v].CtorObj?)
    requires HeapExtends(AddKids(a, parent, [id]), b) && HeapExtends(AddKids(b, parent, rest), c)
    ensures HeapExtends(AddKids(a, parent, [id] + rest), c)
    ensures HeapKept(b, c, |a.vars|, |a.tables|)
  {
    AddKidsGrows(b, parent, rest);
    match parent
    case InGroup(g) =>
      assert a.groups[g].vars + [id] + rest == a.groups[g].vars + ([id] + rest);
      assert c.groups == AddKids(a, parent, [id] + rest).groups;
    case InVar(v) =>
      assert a.vars[v].members + [id] + rest == a.vars[v].members + ([id] + rest);
      var h := AddKids(a, parent, [id] + rest);
      assert forall i :: 0 <= i < |a.vars| ==> c.vars[i] == h.vars[i];
  }

  lemma MoreKids(a: Heap, b: Heap, c: Heap, parent: Parent, id: Id, rest: seq<Id>, vs: seq<Var>)
    requires ValidParent(a, parent) && (parent.InVar? ==> a.vars[parent.v].CtorObj?)
    requires ValidParent(b, parent) && (parent.InVar? ==> b.vars[parent.v].CtorObj?)
    requires HeapExtends(AddKids(a, parent, [id]), b) && HeapExtends(AddKids(b, parent, rest), c)
    requires vs != [] && VarRep(b, id, vs[0], |a.vars|, |a.tables|)
    requires VarsRep(c, rest, vs[1..], |b.vars|, |b.tables|)
    ensures HeapExtends(AddKids(a, parent, [id] + rest), c)
    ensures VarsRep(c, [id] + rest, vs, |a.vars|, |a.tables|)
  {
    KidsInTurn(a, b, c, parent, id, rest);
    VarStable(b, c, id, vs[0], |a.vars|, |a.tables|);
    VarsWeaken(c, rest, vs[1..], |b.vars|, |b.tables|, |a.vars|, |a.tables|);
    forall i | 0 <= i < |vs| ensures VarRep(c, ([id] + rest)[i], vs[i], |a.vars|, |a.tables|) {
      if i > 0 { assert VarRep(c, rest[i - 1], vs[1..][i - 1], |a.vars|, |a.tables|); }
    }
  }
}
