/** Extents before members.  The end of a simple variable inside an array adds it to the array's
    prototype, but the end of a structure or a sequence there gives it to the array itself, which
    takes it for its prototype. */
module DmrMemberOrder {
  import opened Wrappers
  import opened Text
  import opened DmrTree
  import opened XmlStream
  import opened DmrPrinter
  import opened D4Heap
  import opened D4Parser
  import opened DmrRep
  import opened DmrLookup
  import opened DmrReadAttrs
  import opened DmrReadVars

  /** Inside the element of a structure whose extents have been read: a is the array, whose table
      is t, and wm are the members of what is now its prototype. */
  predicate InArray(p: Reader, a: Id, t: Id, wm: seq<Var>) {
    && Ready(p) && p.grps.Push? && p.s.top == InsideConstructor && p.btps.Push? && p.btps.top == a
    && Linked(p.heap.groups) && Over(p.heap, a, t, wm)
  }

  predicate Over(h: Heap, a: Id, t: Id, wm: seq<Var>) {
    && a < |h.vars| && t < |h.tables| && h.vars[a].ArrayObj? && h.vars[a].attrs == Some(t)
    && var b := h.vars[a].proto;
    && b < |h.vars| && b != a && h.vars[b].CtorObj?
    && VarsRep(h, h.vars[b].members, wm, (if b < a then a else b) + 1, t + 1)
  }

  /** The members of the prototype after some more elements. */
  function Members(wm: seq<Var>, ms: seq<Var>): seq<Var>
    decreases |ms|
  {
    if ms == [] then wm else Members(if ms[0].Simple? then wm + [ms[0]] else ms[0].members, ms[1..])
  }

  predicate AllSimple(vs: seq<Var>) { forall i :: 0 <= i < |vs| ==> vs[i].Simple? }

  /** Of the older objects only the array and its prototype may have changed; if all members were
      simple, only the prototype has, by getting members. */
  predicate Around(x: Heap, y: Heap, a: Id, simple: bool)
    requires a < |x.vars| && x.vars[a].ArrayObj? && x.vars[a].proto < |x.vars| && x.vars[x.vars[a].proto].CtorObj?
  {
    var b := x.vars[a].proto;
    && y.groups == x.groups && x.tables <= y.tables && |x.vars| <= |y.vars|
    && (forall i :: 0 <= i < |x.vars| && i != a && i != b ==> y.vars[i] == x.vars[i])
    && (simple ==> y.vars[a] == x.vars[a] && y.vars[b].CtorObj?
                   && y.vars[b] == x.vars[b].(members := y.vars[b].members))
  }

  // ---------------------------------------------------------------- one member

  /** A simple member joins the members of the prototype. */
  lemma SimpleJoins(p: Reader, q: Reader, v: Var, o: VarObj, a: Id, t: Id, wm: seq<Var>, id: Id)
    requires InArray(p, a, t, wm) && v.Simple? && IsSimpleType(v.typ)
    requires SameBut(Opened(p, v, o).(btps := Push(id, p.btps)), q) && HeapExtends(p.heap, q.heap)
    ensures var b := p.heap.vars[a].proto; var r := End(q, DAP4_NS, VarTag(v));
      && SameBut(p, r) && b < |q.heap.vars| && q.heap.vars[b].CtorObj?
      && r.heap == WithVar(q.heap, b, q.heap.vars[b].(members := q.heap.vars[b].members + [id]))
  {
    hide VarsRep;
    VarTagType(v);
  }

  lemma CompleteCore(p: Reader, q: Reader, v: Var, id: Id)
    requires Complete(p, q, v, id) && v.Ctor?
    ensures var c := |p.heap.vars|;
      && c <= id < |q.heap.vars| && q.heap.vars[c].CtorObj?
      && CoreRep(q.heap, q.heap.vars[c], v, c + 1, |p.heap.tables| + 1)
      && (id == c || (q.heap.vars[id].ArrayObj? && q.heap.vars[id].proto == c))
  {
    hide VarRep, VarsRep;
  }

  /** A structure or a sequence takes the place of the prototype. */
  lemma CtorReplaces(p: Reader, q: Reader, v: Var, o: VarObj, a: Id, t: Id, wm: seq<Var>, id: Id)
    requires InArray(p, a, t, wm) && v.Ctor?
    requires var c := |p.heap.vars|;
      && c <= id < |q.heap.vars| && q.heap.vars[c].CtorObj?
      && (id == c || (q.heap.vars[id].ArrayObj? && q.heap.vars[id].proto == c))
    requires SameBut(Opened(p, v, o).(btps := Push(id, p.btps)), q) && HeapExtends(p.heap, q.heap)
    ensures var c := |p.heap.vars|; var r := End(q, DAP4_NS, VarTag(v));
      && SameBut(p, r) && r.heap.groups == q.heap.groups && r.heap.tables == q.heap.tables
      && |r.heap.vars| == |q.heap.vars| && c < |q.heap.vars| && q.heap.vars[c].CtorObj?
      && (forall i :: 0 <= i < |q.heap.vars| && i != a && i != c ==> r.heap.vars[i] == q.heap.vars[i])
      && r.heap.vars[c].CtorObj? && r.heap.vars[c].members == q.heap.vars[c].members
      && r.heap.vars[a].ArrayObj? && r.heap.vars[a].proto == c && r.heap.vars[a].attrs == Some(t)
  {
    hide VarsRep, VarRep, Extents, Www2Id;
    VarTagType(v);
  }

  /** The number of elements along an extent, whether it is given by itself or shared. */
  function SizeOf(h: Heap, d: DimObj): int {
    match d
    case Local(n, _) => n
    case Shared(r) =>
      if r.group < |h.groups| && r.index < |h.groups[r.group].dims| then h.groups[r.group].dims[r.index].size else 0
  }

  /** The name of an extent that is given by itself. */
  predicate KeepsName(from: DimObj, to: DimObj) {
    from.Local? && Free(from.name, '%') && to.Local? ==> to.name == from.name
  }

  lemma {:induction false} ExtentSizes(h: Heap, ds: seq<DimObj>)
    ensures |Extents(h, ds)| == |ds|
    ensures forall i :: 0 <= i < |ds| ==> Extents(h, ds)[i].Local? && Extents(h, ds)[i].size == SizeOf(h, ds[i])
    ensures forall i :: 0 <= i < |ds| ==> KeepsName(ds[i], Extents(h, ds)[i])
    decreases |ds|
  {
    hide Www2Id;
    if ds != [] {
      ExtentSizes(h, ds[1..]);
      if ds[0].Local? && Free(ds[0].name, '%') { Www2IdPlain(ds[0].name); }
    }
  }

  /** An array that is given to an array: its prototype becomes the other's, and its extents go
      behind the other's as plain numbers. */
  lemma ArrayIntoArray(h: Heap, a: Id, c: Id)
    requires a < |h.vars| && c < |h.vars| && h.vars[a].ArrayObj? && h.vars[c].ArrayObj?
    requires h.vars[c].proto < |h.vars| && h.vars[c].proto != a
    ensures var r := SetProto(h, a, c); var first, more := h.vars[a].dims, h.vars[c].dims;
      && r.Some? && r.value.vars[a].ArrayObj? && r.value.vars[a].proto == h.vars[c].proto
      && var d := r.value.vars[a].dims;
      && |d| == |first| + |more| && d[..|first|] == first
      && forall i :: 0 <= i < |more| ==>
            d[|first| + i].Local? && d[|first| + i].size == SizeOf(h, more[i]) && KeepsName(more[i], d[|first| + i])
  {
    hide Extents, Www2Id, SizeOf;
    ExtentSizes(h, h.vars[c].dims);
  }

  /** An array and what it takes for its prototype bear one name afterwards: that of the prototype,
      decoded, or else that of the array, if its own has no percent sign. */
  lemma OneName(h: Heap, a: Id, c: Id)
    requires a < |h.vars| && c < |h.vars| && h.vars[a].ArrayObj?
    requires h.vars[c].ArrayObj? ==> h.vars[c].proto < |h.vars|
    requires a != if h.vars[c].ArrayObj? then h.vars[c].proto else c
    ensures var b := if h.vars[c].ArrayObj? then h.vars[c].proto else c;
      var r := SetProto(h, a, c); var own, n := h.vars[a].name, h.vars[b].name;
      && r.Some? && r.value.vars[a].ArrayObj? && r.value.vars[a].proto == b
      && (n != "" ==> r.value.vars[a].name == r.value.vars[b].name == Www2Id(n))
      && (n == "" ==> r.value.vars[a].name == own && (r.value.vars[b].name == own <==> Free(own, '%')))
  {
    hide Extents, Www2Id;
    Www2IdFixed(h.vars[a].name);
  }

  lemma JoinedOver(h: Heap, x: Heap, y: Heap, v: Var, a: Id, t: Id, wm: seq<Var>, id: Id)
    requires Over(h, a, t, wm) && HeapExtends(h, x) && VarRep(x, id, v, |h.vars|, |h.tables|)
    requires x.vars[h.vars[a].proto].CtorObj?
    requires var b := h.vars[a].proto; y == WithVar(x, b, x.vars[b].(members := x.vars[b].members + [id]))
    ensures Over(y, a, t, wm + [v]) && Around(h, y, a, true) && y.vars[a].proto == h.vars[a].proto
  {
    hide VarRep;
    var b := h.vars[a].proto;
    var lo := (if b < a then a else b) + 1;
    var ids := h.vars[b].members;
    VarsStable(h, y, ids, wm, lo, t + 1);
    VarStable(x, y, id, v, |h.vars|, |h.tables|);
    VarWeaken(y, id, v, |h.vars|, |h.tables|, lo, t + 1);
    forall i | 0 <= i < |wm + [v]| ensures VarRep(y, (ids + [id])[i], (wm + [v])[i], lo, t + 1) {
      if i < |wm| { assert VarRep(y, ids[i], wm[i], lo, t + 1); }
    }
  }

  lemma ReplacedOver(h: Heap, x: Heap, y: Heap, v: Var, a: Id, t: Id, wm: seq<Var>)
    requires Over(h, a, t, wm) && HeapExtends(h, x) && v.Ctor?
    requires var c := |h.vars|;
      && c < |x.vars| && CoreRep(x, x.vars[c], v, c + 1, |h.tables| + 1)
      && y.groups == x.groups && y.tables == x.tables && |y.vars| == |x.vars|
      && (forall i :: 0 <= i < |x.vars| && i != a && i != c ==> y.vars[i] == x.vars[i])
      && y.vars[c].CtorObj? && y.vars[c].members == x.vars[c].members
      && y.vars[a].ArrayObj? && y.vars[a].proto == c && y.vars[a].attrs == Some(t)
    ensures Over(y, a, t, v.members) && Around(h, y, a, false) && y.vars[a].proto >= |h.vars|
  {
    var c := |h.vars|;
    var ids := x.vars[c].members;
    VarsStable(x, y, ids, v.members, c + 1, |h.tables| + 1);
    VarsWeaken(y, ids, v.members, c + 1, |h.tables| + 1, c + 1, t + 1);
  }

  lemma StillInArray(p: Reader, q: Reader, a: Id, t: Id, wm: seq<Var>, more: seq<Var>)
    requires InArray(p, a, t, wm) && SameBut(p, q) && q.heap.groups == p.heap.groups && Over(q.heap, a, t, more)
    ensures InArray(q, a, t, more)
  {
    hide Over, Linked;
  }

  lemma SimpleDone(p: Reader, r: Reader, v: Var, o: VarObj, a: Id, t: Id, wm: seq<Var>, id: Id)
    requires InArray(p, a, t, wm) && v.Simple? && IsSimpleType(v.typ) && Complete(p, r, v, id)
    requires SameBut(Opened(p, v, o).(btps := Push(id, p.btps)), r) && HeapExtends(p.heap, r.heap)
    ensures var q := End(r, DAP4_NS, VarTag(v));
      && SameBut(p, q) && InArray(q, a, t, wm + [v]) && Around(p.heap, q.heap, a, true)
      && q.heap.vars[a].proto == p.heap.vars[a].proto
  {
    SimpleJoins(p, r, v, o, a, t, wm, id);
    assert Over(p.heap, a, t, wm) && r.heap.groups == p.heap.groups;
    CompleteRep(p, r, v, id);
    hide End, Over, Complete, InArray, VarRep, Around;
    var q := End(r, DAP4_NS, VarTag(v));
    JoinedOver(p.heap, r.heap, q.heap, v, a, t, wm, id);
    StillInArray(p, q, a, t, wm, wm + [v]);
  }

  lemma CtorDone(p: Reader, r: Reader, v: Var, o: VarObj, a: Id, t: Id, wm: seq<Var>, id: Id)
    requires InArray(p, a, t, wm) && v.Ctor? && Complete(p, r, v, id)
    requires SameBut(Opened(p, v, o).(btps := Push(id, p.btps)), r) && HeapExtends(p.heap, r.heap)
    ensures var q := End(r, DAP4_NS, VarTag(v));
      && SameBut(p, q) && InArray(q, a, t, v.members) && Around(p.heap, q.heap, a, false)
      && q.heap.vars[a].proto >= |p.heap.vars|
  {
    hide End, Over, Complete, VarRep, CoreRep, Around;
    CompleteCore(p, r, v, id);
    CtorReplaces(p, r, v, o, a, t, wm, id);
    assert Over(p.heap, a, t, wm) && r.heap.groups == p.heap.groups;
    hide InArray;
    var q := End(r, DAP4_NS, VarTag(v));
    ReplacedOver(p.heap, r.heap, q.heap, v, a, t, wm);
    StillInArray(p, q, a, t, wm, v.members);
  }

  lemma Hosts(p: Reader, a: Id, t: Id, wm: seq<Var>)
    requires InArray(p, a, t, wm)
    ensures StartHost(p) && Linked(p.heap.groups)
  {
  }

  /** One member. */
  lemma ReadOne(p: Reader, n: Node, v: Var, a: Id, t: Id, wm: seq<Var>) returns (q: Reader)
    requires InArray(p, a, t, wm) && SaysVar(p.heap.groups, p.grps.top, n, v)
    ensures q == RunNode(p, n) && SameBut(p, q)
    ensures InArray(q, a, t, if v.Simple? then wm + [v] else v.members) && Around(p.heap, q.heap, a, v.Simple?)
    ensures q.heap.vars[a].proto == p.heap.vars[a].proto || q.heap.vars[a].proto >= |p.heap.vars|
  {
    hide *;
    Hosts(p, a, t, wm);
    var id, o, r := ReadUpToEnd(p, n, v);
    q := End(r, DAP4_NS, VarTag(v));
    if v.Simple? { SimpleDone(p, r, v, o, a, t, wm, id); } else { CtorDone(p, r, v, o, a, t, wm, id); }
  }

  // ---------------------------------------------------------------- all members

  lemma AroundTwice(x: Heap, y: Heap, z: Heap, a: Id, t: Id, wm: seq<Var>, one: bool, more: bool)
    requires Over(x, a, t, wm) && Around(x, y, a, one)
    requires a < |y.vars| && y.vars[a].ArrayObj? && y.vars[a].proto < |y.vars| && y.vars[y.vars[a].proto].CtorObj?
    requires y.vars[a].proto == x.vars[a].proto || y.vars[a].proto >= |x.vars|
    requires Around(y, z, a, more)
    ensures Around(x, z, a, one && more)
  {
    hide VarsRep;
  }

  lemma {:induction false} ReadAll(p: Reader, ns: seq<Node>, vs: seq<Var>, a: Id, t: Id, wm: seq<Var>)
    returns (q: Reader)
    requires InArray(p, a, t, wm) && SaysVars(p.heap.groups, p.grps.top, ns, vs)
    ensures q == RunNodes(p, ns) && SameBut(p, q)
    ensures InArray(q, a, t, Members(wm, vs)) && Around(p.heap, q.heap, a, AllSimple(vs))
    ensures q.heap.vars[a].proto == p.heap.vars[a].proto || q.heap.vars[a].proto >= |p.heap.vars|
    decreases |vs|
  {
    hide RunNode, SaysVar, VarsRep;
    if vs == [] {
      q := p;
    } else {
      assert ns == [ns[0]] + ns[1..];
      var r := ReadOne(p, ns[0], vs[0], a, t, wm);
      RunOne(p, ns[0], ns[1..]);
      q := ReadAll(r, ns[1..], vs[1..], a, t, if vs[0].Simple? then wm + [vs[0]] else vs[0].members);
      AroundTwice(p.heap, r.heap, q.heap, a, t, wm, vs[0].Simple?, AllSimple(vs[1..]));
    }
  }

  lemma {:induction false} MembersOfSimple(wm: seq<Var>, vs: seq<Var>)
    requires AllSimple(vs)
    ensures Members(wm, vs) == wm + vs
    decreases |vs|
  {
    if vs == [] {
      assert wm + vs == wm;
    } else {
      MembersOfSimple(wm + [vs[0]], vs[1..]);
      assert wm + [vs[0]] + vs[1..] == wm + vs;
    }
  }

  lemma {:induction false} LastCtor(wm: seq<Var>, vs: seq<Var>) returns (j: nat)
    requires !AllSimple(vs)
    ensures j < |vs| && vs[j].Ctor? && Members(wm, vs) == vs[j].members + vs[j + 1..]
    decreases |vs|
  {
    var next := if vs[0].Simple? then wm + [vs[0]] else vs[0].members;
    if AllSimple(vs[1..]) {
      j := 0;
      MembersOfSimple(next, vs[1..]);
    } else {
      var i := LastCtor(next, vs[1..]);
      j := i + 1;
      assert vs[1..][i] == vs[j] && vs[1..][i + 1..] == vs[j + 1..];
    }
  }

  /** Members are lost as soon as one of them is a structure or a sequence. */
  lemma MembersExact(vs: seq<Var>)
    ensures Members([], vs) == vs <==> AllSimple(vs)
  {
    if AllSimple(vs) {
      MembersOfSimple([], vs);
      assert [] + vs == vs;
    } else {
      var j := LastCtor([], vs);
      NotItself(vs[j], vs[j + 1..], vs, j);
    }
  }

  /** What ends like a list with v in it, and begins with the members of v, is another list. */
  lemma NotItself(v: Var, post: seq<Var>, vs: seq<Var>, j: nat)
    requires v.Ctor? && j < |vs| && vs[j] == v && |post| == |vs| - j - 1
    ensures v.members + post != vs
  {
    if |v.members| == j + 1 {
      assert v.members[j] < v;
      assert (v.members + post)[j] == v.members[j];
    }
  }

  // ---------------------------------------------------------------- the whole element

  /** An element that says v with the extents before the members. */
  predicate SaysFirst(gs: seq<GroupObj>, g: Id, n: Node, v: Var) {
    && n.Elem? && n.uri == DAP4_NS && n.name == VarTag(v) && SaysTag(gs, g, n.xattrs, v)
    && v.Ctor? && v.dims != [] && Free(v.name, '%') && WfAttrs(v.attrs)
    && |v.dims| + |v.members| <= |n.children|
    && SaysDims(gs, g, n.children[..|v.dims|], v.dims)
    && SaysVars(gs, g, n.children[|v.dims|..|v.dims| + |v.members|], v.members)
    && n.children[|v.dims| + |v.members|..] == PrintAttrs(v.attrs)
  }

  lemma RunFirst(p: Reader, gs: seq<GroupObj>, g: Id, n: Node, v: Var)
    requires SaysFirst(gs, g, n, v)
    ensures RunNode(p, n)
      == End(RunNodes(RunNodes(RunNodes(Start(p, DAP4_NS, VarTag(v), n.xattrs), n.children[..|v.dims|]),
                               n.children[|v.dims|..|v.dims| + |v.members|]), PrintAttrs(v.attrs)), DAP4_NS, VarTag(v))
  {
    hide Start, End, VarTag, SaysTag, PrintAttrs, SaysVars, SaysDims;
    RunParts(Start(p, DAP4_NS, VarTag(v), n.xattrs), n.children, |v.dims|, |v.dims| + |v.members|);
  }

  /** After the extents. */
  predicate Extended(p: Reader, q: Reader, v: Var, os: seq<DimObj>) {
    var b, t := |p.heap.vars|, |p.heap.tables|;
    && Ready(p)
    && q == Enter(p.(heap := q.heap, btps := Push(b + 1, p.btps), atts := Push(t, p.atts)), InsideConstructor)
    && q.heap.groups == p.heap.groups && q.heap.tables == p.heap.tables + [[]] && |q.heap.vars| == b + 2
    && p.heap.vars <= q.heap.vars && DimsRep(p.heap.groups, os, v.dims)
    && q.heap.vars[b + 1] == ArrayObj(v.name, b, os, Some(t)) && v.Ctor?
    && q.heap.vars[b] == CtorObj(v.sequence, v.name, [], None)
    && InArray(q, b + 1, t, [])
  }

  lemma ReadExtents(p: Reader, n: Node, v: Var) returns (os: seq<DimObj>, q: Reader)
    requires StartHost(p) && SaysFirst(p.heap.groups, p.grps.top, n, v) && Linked(p.heap.groups)
    ensures q == RunNodes(Start(p, DAP4_NS, VarTag(v), n.xattrs), n.children[..|v.dims|])
    ensures Extended(p, q, v, os)
  {
    hide RunNodes, Start, SaysTag, SaysDims, SaysVars, DimRep, Linked, VarRep;
    var o := StartVar(p, n.xattrs, v);
    var p1 := Opened(p, v, o);
    os := ReadDims(p1, n.children[..|v.dims|], v.dims);
    q := RunNodes(p1, n.children[..|v.dims|]);
    assert q.heap.vars[|p.heap.vars|] == CtorObj(v.sequence, v.name, [], None);
  }

  lemma ReadRest(p: Reader, q2: Reader, n: Node, v: Var, os: seq<DimObj>) returns (q: Reader, q3: Reader)
    requires Extended(p, q2, v, os) && SaysFirst(p.heap.groups, p.grps.top, n, v)
    ensures var a, t := |p.heap.vars| + 1, |p.heap.tables|;
      && q == RunNodes(RunNodes(q2, n.children[|v.dims|..|v.dims| + |v.members|]), PrintAttrs(v.attrs))
      && SameBut(q2, q) && a < |q3.heap.vars| && q3.heap.vars[a].ArrayObj?
      && Over(q3.heap, a, t, Members([], v.members))
      && Around(q2.heap, q3.heap, a, AllSimple(v.members)) && TableExtended(q3.heap, q.heap, t, v.attrs)
      && q3.heap.vars[a].proto >= |p.heap.vars|
  {
    hide RunNode, SaysTag, SaysDims, SaysVars, VarsRep, DimsRep, Around, Linked, AttrRep;
    var a, t := |p.heap.vars| + 1, |p.heap.tables|;
    q3 := ReadAll(q2, n.children[|v.dims|..|v.dims| + |v.members|], v.members, a, t, []);
    TablesLonger(q2.heap, q3.heap, a, AllSimple(v.members), t);
    assert [] + v.attrs == v.attrs;
    ReadAttrs(q3, v.attrs, []);
    q := RunNodes(q3, PrintAttrs(v.attrs));
  }

  lemma TablesLonger(x: Heap, y: Heap, a: Id, simple: bool, t: Id)
    requires a < |x.vars| && x.vars[a].ArrayObj? && x.vars[a].proto < |x.vars| && x.vars[x.vars[a].proto].CtorObj?
    requires Around(x, y, a, simple) && t < |x.tables|
    ensures t < |y.tables| && y.tables[t] == x.tables[t]
  {
  }


  lemma HeldAt(a: Heap, b: Heap, h: Heap, v: Var, base: Id, t: Id, os: seq<DimObj>)
    requires base + 1 < |a.vars| && a.vars[base + 1] == ArrayObj(v.name, base, os, Some(t)) && v.Ctor?
    requires a.vars[base] == CtorObj(v.sequence, v.name, [], None) && AllSimple(v.members)
    requires DimsRep(a.groups, os, v.dims) && v.dims != []
    requires Over(b, base + 1, t, Members([], v.members)) && Around(a, b, base + 1, true)
    requires TableExtended(b, h, t, v.attrs)
    ensures VarRep(h, base + 1, v, base, t)
  {
    MembersExact(v.members);
    hide VarsRep, DimsRep, TableExtended, Members;
    assert b.vars[base + 1] == a.vars[base + 1] && b.groups == a.groups;
    VarsWeaken(b, b.vars[base].members, v.members, base + 2, t + 1, base + 1, t + 1);
    assert CoreRep(b, b.vars[base], v, base + 1, t + 1);
    TailRep(b, h, v, base, t, base + 1, os);
  }

  /** No heap in which the prototype has other members stands for v. */
  lemma NotHeld(b: Heap, h: Heap, v: Var, a: Id, t: Id, base: Id, lv: Id, lt: Id)
    requires v.Ctor? && v.dims != [] && !AllSimple(v.members)
    requires Over(b, a, t, Members([], v.members)) && base <= a && base <= b.vars[a].proto
    requires HeapKept(b, h, base, t + 1)
    ensures !VarRep(h, a, v, lv, lt)
  {
    MembersExact(v.members);
    hide Members, AllSimple, VarsRep, TableRep;
    if VarRep(h, a, v, lv, lt) {
      var o := b.vars[b.vars[a].proto];
      var lo := (if b.vars[a].proto < a then a else b.vars[a].proto) + 1;
      VarsStable(b, h, o.members, Members([], v.members), lo, t + 1);
      assert CoreRep(h, o, v, lv, lt);
      VarsWeaken(h, o.members, Members([], v.members), lo, t + 1, 0, 0);
      VarsWeaken(h, o.members, v.members, lv, lt, 0, 0);
      VarsUnique(h, o.members, v.members, Members([], v.members), 0, 0);
    }
  }

  /** What the attributes and the end tag change is below the array and its prototype. */
  lemma KeptToEnd(b: Heap, h: Heap, t: Id, attrs: seq<Attr>, parent: Parent, id: Id, base: Id)
    requires TableExtended(b, h, t, attrs)
    requires ValidParent(h, parent) && (parent.InVar? ==> h.vars[parent.v].CtorObj? && parent.v < base)
    ensures HeapKept(b, AddKids(h, parent, [id]), base, t + 1)
    ensures HeapKept(h, AddKids(h, parent, [id]), base, 0)
  {
    hide TableRep, AttrsRep;
    AddKidsGrows(h, parent, [id]);
  }

  /** The end tag adds the array to the parent. */
  lemma CloseFirst(p: Reader, q2: Reader, q3: Heap, q: Reader, v: Var, os: seq<DimObj>, parent: Parent)
    requires VarHost(p, parent) && Extended(p, q2, v, os) && SameBut(q2, q)
    requires Around(q2.heap, q3, |p.heap.vars| + 1, AllSimple(v.members))
    requires TableExtended(q3, q.heap, |p.heap.tables|, v.attrs)
    ensures var a := |p.heap.vars| + 1; var r := End(q, DAP4_NS, VarTag(v));
      && SameBut(p, r) && r.heap == AddKids(q.heap, parent, [a]) && a < |q.heap.vars|
      && ValidParent(q.heap, parent) && (parent.InVar? ==> q.heap.vars[parent.v].CtorObj?)
      && HeapExtends(AddKids(p.heap, parent, [a]), r.heap)
  {
    hide End, VarsRep, DimsRep, AttrsRep, InArray;
    EndVar(q, p, v, parent, |p.heap.vars| + 1);
  }

  lemma StandsExact(p: Reader, q2: Reader, q3: Heap, q: Reader, v: Var, os: seq<DimObj>, parent: Parent)
    requires VarHost(p, parent) && Extended(p, q2, v, os) && v.dims != []
    requires Over(q3, |p.heap.vars| + 1, |p.heap.tables|, Members([], v.members))
    requires Around(q2.heap, q3, |p.heap.vars| + 1, AllSimple(v.members))
    requires TableExtended(q3, q.heap, |p.heap.tables|, v.attrs)
    requires ValidParent(q.heap, parent) && (parent.InVar? ==> q.heap.vars[parent.v].CtorObj?)
    requires q3.vars[|p.heap.vars| + 1].proto >= |p.heap.vars|
    ensures var h := AddKids(q.heap, parent, [|p.heap.vars| + 1]);
      VarRep(h, |p.heap.vars| + 1, v, |p.heap.vars|, |p.heap.tables|) <==> AllSimple(v.members)
  {
    hide VarsRep, DimsRep, VarRep, InArray, TableExtended, Over, Members, AllSimple, Around;
    var b, t := |p.heap.vars|, |p.heap.tables|;
    var h := AddKids(q.heap, parent, [b + 1]);
    KeptToEnd(q3, q.heap, t, v.attrs, parent, b + 1, b);
    if AllSimple(v.members) {
      HeldAt(q2.heap, q3, q.heap, v, b, t, os);
      VarStable(q.heap, h, b + 1, v, b, t);
    } else {
      NotHeld(q3, h, v, b + 1, t, b, b, t);
    }
  }

  /** A structure or sequence whose extents come before its members is read as an array that
      stands for it exactly when all its members are simple. */
  lemma ExtentsFirst(p: Reader, n: Node, v: Var, parent: Parent) returns (a: Id)
    requires VarHost(p, parent) && SaysFirst(p.heap.groups, p.grps.top, n, v) && Linked(p.heap.groups)
    ensures var q := RunNode(p, n);
      && SameBut(p, q) && HeapExtends(AddKids(p.heap, parent, [a]), q.heap) && a < |q.heap.vars|
      && q.heap.vars[a].ArrayObj?
      && (VarRep(q.heap, a, v, |p.heap.vars|, |p.heap.tables|) <==> AllSimple(v.members))
  {
    a := |p.heap.vars| + 1;
    RunFirst(p, p.heap.groups, p.grps.top, n, v);
    assert p.grps.Push?;
    hide *;
    HostStarts(p, parent);
    var os, q2 := ReadExtents(p, n, v);
    var q, q3 := ReadRest(p, q2, n, v, os);
    CloseFirst(p, q2, q3.heap, q, v, os, parent);
    StandsExact(p, q2, q3.heap, q, v, os, parent);
  }
}
