/** When the objects in the reader's heap stand for a DMR tree. */
module DmrRep {
  import opened Wrappers
  import opened DmrTree
  import opened D4Heap

  /** The names from the root (exclusive) down to a group, along the parent pointers. */
  function GroupPath(gs: seq<GroupObj>, g: Id): seq<string>
    decreases g
  {
    if g < |gs| && gs[g].parent.Some? && gs[g].parent.value < g
    then GroupPath(gs, gs[g].parent.value) + [gs[g].name] else []
  }

  predicate DimRefRep(gs: seq<GroupObj>, r: DefRef, path: seq<string>) {
    r.group < |gs| && r.index < |gs[r.group].dims|
    && path == GroupPath(gs, r.group) + [gs[r.group].dims[r.index].name]
  }

  predicate EnumRefRep(gs: seq<GroupObj>, r: DefRef, path: seq<string>) {
    r.group < |gs| && r.index < |gs[r.group].enums|
    && path == GroupPath(gs, r.group) + [gs[r.group].enums[r.index].name]
  }

  predicate DimRep(gs: seq<GroupObj>, o: DimObj, d: Dim) {
    match d
    case Sized(n) => o == Local(n, "")
    case Named(path) => o.Shared? && DimRefRep(gs, o.dim, path)
  }

  predicate DimsRep(gs: seq<GroupObj>, os: seq<DimObj>, ds: seq<Dim>) {
    |os| == |ds| && forall i :: 0 <= i < |ds| ==> DimRep(gs, os[i], ds[i])
  }

  /** An attribute object, whose container tables all lie at or above `lo`. */
  predicate AttrRep(ts: seq<seq<AttrObj>>, o: AttrObj, a: Attr, lo: Id)
    decreases a, 0
  {
    match a
    case Leaf(n, t, vs) => o == AttrObj(n, t, vs, None)
    case Container(n, attrs) =>
      o.child.Some? && o == AttrObj(n, ContainerA, [], o.child) && TableRep(ts, o.child.value, attrs, lo)
  }

  predicate AttrsRep(ts: seq<seq<AttrObj>>, os: seq<AttrObj>, attrs: seq<Attr>, lo: Id)
    decreases attrs, 1
  {
    |os| == |attrs| && forall i :: 0 <= i < |attrs| ==> AttrRep(ts, os[i], attrs[i], lo)
  }

  predicate TableRep(ts: seq<seq<AttrObj>>, t: Id, attrs: seq<Attr>, lo: Id)
    decreases attrs, 2
  {
    lo <= t < |ts| && AttrsRep(ts, ts[t], attrs, t + 1)
  }

  /** The variable proper, which for an array is its prototype. */
  predicate CoreRep(h: Heap, o: VarObj, v: Var, lv: Id, lt: Id)
    decreases v, 0
  {
    match v
    case Simple(t, n, path, _, _) =>
      && o.SimpleObj? && o.typ == t && o.name == n
      && if t == EnumT then o.enumDef.Some? && EnumRefRep(h.groups, o.enumDef.value, path)
         else o.enumDef.None? && path == []
    case Ctor(s, n, ms, _, _) =>
      && o.CtorObj? && o.sequence == s && o.name == n
      && VarsRep(h, o.members, ms, lv, lt)
  }

  /** A variable whose objects and tables lie at or above `lv` and `lt`. */
  predicate VarRep(h: Heap, id: Id, v: Var, lv: Id, lt: Id)
    decreases v, 1
  {
    && lv <= id < |h.vars|
    && h.vars[id].attrs.Some? && TableRep(h.tables, h.vars[id].attrs.value, v.attrs, lt)
    && if v.dims == [] then CoreRep(h, h.vars[id], v, lv, lt)
       else
         && h.vars[id].ArrayObj? && h.vars[id].name == v.name
         && DimsRep(h.groups, h.vars[id].dims, v.dims)
         && lv <= h.vars[id].proto < |h.vars|
         && h.vars[h.vars[id].proto].attrs.None?
         && CoreRep(h, h.vars[h.vars[id].proto], v, lv, lt)
  }

  predicate VarsRep(h: Heap, ids: seq<Id>, vs: seq<Var>, lv: Id, lt: Id)
    decreases vs, 2
  {
    |ids| == |vs| && forall i :: 0 <= i < |vs| ==> VarRep(h, ids[i], vs[i], lv, lt)
  }

  /** A group; its own object and those of its descendants lie at or above `lg`. */
  predicate GroupRep(h: Heap, id: Id, g: Group, lg: Id, lv: Id, lt: Id)
    decreases g, 0
  {
    && lg <= id < |h.groups|
    && var o := h.groups[id];
    && o.name == g.name && o.dims == g.dims && o.enums == g.enums
    && VarsRep(h, o.vars, g.vars, lv, lt)
    && TableRep(h.tables, o.attrs, g.attrs, lt)
    && GroupsRep(h, o.groups, g.groups, id + 1, lv, lt)
  }

  predicate GroupsRep(h: Heap, ids: seq<Id>, gs: seq<Group>, lg: Id, lv: Id, lt: Id)
    decreases gs, 1
  {
    |ids| == |gs| && forall i :: 0 <= i < |gs| ==> GroupRep(h, ids[i], gs[i], lg, lv, lt)
  }

  // ---------------------------------------------------------------- uniqueness

  lemma {:induction false} AttrsUnique(ts: seq<seq<AttrObj>>, os: seq<AttrObj>, a: seq<Attr>, b: seq<Attr>,
                                       la: Id, lb: Id)
    requires AttrsRep(ts, os, a, la) && AttrsRep(ts, os, b, lb)
    ensures a == b
    decreases a
  {
    forall i | 0 <= i < |a| ensures a[i] == b[i] {
      assert AttrRep(ts, os[i], a[i], la) && AttrRep(ts, os[i], b[i], lb);
      if a[i].Container? && b[i].Container? {
        var t := os[i].child.value;
        assert TableRep(ts, t, a[i].attrs, la) && TableRep(ts, t, b[i].attrs, lb);
        AttrsUnique(ts, ts[t], a[i].attrs, b[i].attrs, t + 1, t + 1);
      }
    }
  }

  lemma DimsUnique(gs: seq<GroupObj>, os: seq<DimObj>, a: seq<Dim>, b: seq<Dim>)
    requires DimsRep(gs, os, a) && DimsRep(gs, os, b)
    ensures a == b
  {
    forall i | 0 <= i < |a| ensures a[i] == b[i] {
      assert DimRep(gs, os[i], a[i]) && DimRep(gs, os[i], b[i]);
    }
  }

  lemma {:induction false} VarsUnique(h: Heap, ids: seq<Id>, a: seq<Var>, b: seq<Var>, lv: Id, lt: Id)
    requires VarsRep(h, ids, a, lv, lt) && VarsRep(h, ids, b, lv, lt)
    ensures a == b
    decreases a, 0
  {
    forall i | 0 <= i < |a| ensures a[i] == b[i] {
      VarUnique(h, ids[i], a[i], b[i], lv, lt);
    }
  }

  lemma {:induction false} VarUnique(h: Heap, id: Id, a: Var, b: Var, lv: Id, lt: Id)
    requires VarRep(h, id, a, lv, lt) && VarRep(h, id, b, lv, lt)
    ensures a == b
    decreases a, 1
  {
    var t := h.vars[id].attrs.value;
    AttrsUnique(h.tables, h.tables[t], a.attrs, b.attrs, t + 1, t + 1);
    if a.dims != [] && b.dims != [] { DimsUnique(h.groups, h.vars[id].dims, a.dims, b.dims); }
    var core := if a.dims == [] then h.vars[id] else h.vars[h.vars[id].proto];
    assert CoreRep(h, core, a, lv, lt) && CoreRep(h, core, b, lv, lt);
    if a.Ctor? { VarsUnique(h, core.members, a.members, b.members, lv, lt); }
  }

  /** A heap stands for at most one tree. */
  lemma {:induction false} GroupUnique(h: Heap, id: Id, a: Group, b: Group, lg: Id, lv: Id, lt: Id)
    requires GroupRep(h, id, a, lg, lv, lt) && GroupRep(h, id, b, lg, lv, lt)
    ensures a == b
    decreases a
  {
    var o := h.groups[id];
    VarsUnique(h, o.vars, a.vars, b.vars, lv, lt);
    AttrsUnique(h.tables, h.tables[o.attrs], a.attrs, b.attrs, o.attrs + 1, o.attrs + 1);
    forall i | 0 <= i < |a.groups| ensures a.groups[i] == b.groups[i] {
      GroupUnique(h, o.groups[i], a.groups[i], b.groups[i], id + 1, lv, lt);
    }
  }

  // ---------------------------------------------------------------- stability

  /** Groups may be added and may gain members, but what is there stays as it is. */
  predicate GroupsGrow(a: seq<GroupObj>, b: seq<GroupObj>) {
    |a| <= |b|
    && forall g :: 0 <= g < |a| ==>
         && b[g].name == a[g].name && b[g].parent == a[g].parent
         && a[g].dims <= b[g].dims && a[g].enums <= b[g].enums && a[g].groups <= b[g].groups
  }

  predicate TablesKept(a: seq<seq<AttrObj>>, b: seq<seq<AttrObj>>, lt: Id) {
    |a| <= |b| && forall t :: lt <= t < |a| ==> b[t] == a[t]
  }

  predicate VarsKept(a: seq<VarObj>, b: seq<VarObj>, lv: Id) {
    |a| <= |b| && forall v :: lv <= v < |a| ==> b[v] == a[v]
  }

  lemma {:induction false} PathStable(a: seq<GroupObj>, b: seq<GroupObj>, g: Id)
    requires GroupsGrow(a, b) && g < |a|
    ensures GroupPath(b, g) == GroupPath(a, g)
    decreases g
  {
    if a[g].parent.Some? && a[g].parent.value < g { PathStable(a, b, a[g].parent.value); }
  }

  lemma DimsStable(a: seq<GroupObj>, b: seq<GroupObj>, os: seq<DimObj>, ds: seq<Dim>)
    requires GroupsGrow(a, b) && DimsRep(a, os, ds)
    ensures DimsRep(b, os, ds)
  {
    forall i | 0 <= i < |ds| ensures DimRep(b, os[i], ds[i]) {
      assert DimRep(a, os[i], ds[i]);
      if os[i].Shared? { PathStable(a, b, os[i].dim.group); }
    }
  }

  lemma {:induction false} AttrsStable(a: seq<seq<AttrObj>>, b: seq<seq<AttrObj>>, os: seq<AttrObj>,
                                       attrs: seq<Attr>, lo: Id)
    requires AttrsRep(a, os, attrs, lo) && TablesKept(a, b, lo)
    ensures AttrsRep(b, os, attrs, lo)
    decreases attrs
  {
    forall i | 0 <= i < |attrs| ensures AttrRep(b, os[i], attrs[i], lo) {
      assert AttrRep(a, os[i], attrs[i], lo);
      if attrs[i].Container? {
        var t := os[i].child.value;
        assert TableRep(a, t, attrs[i].attrs, lo);
        AttrsStable(a, b, a[t], attrs[i].attrs, t + 1);
        assert TableRep(b, t, attrs[i].attrs, lo);
      }
    }
  }

  predicate HeapKept(a: Heap, b: Heap, lv: Id, lt: Id) {
    GroupsGrow(a.groups, b.groups) && VarsKept(a.vars, b.vars, lv) && TablesKept(a.tables, b.tables, lt)
  }

  lemma {:induction false} VarsStable(a: Heap, b: Heap, ids: seq<Id>, vs: seq<Var>, lv: Id, lt: Id)
    requires VarsRep(a, ids, vs, lv, lt) && HeapKept(a, b, lv, lt)
    ensures VarsRep(b, ids, vs, lv, lt)
    decreases vs, 0
  {
    forall i | 0 <= i < |vs| ensures VarRep(b, ids[i], vs[i], lv, lt) {
      VarStable(a, b, ids[i], vs[i], lv, lt);
    }
  }

  lemma {:induction false} CoreStable(a: Heap, b: Heap, o: VarObj, v: Var, lv: Id, lt: Id)
    requires CoreRep(a, o, v, lv, lt) && HeapKept(a, b, lv, lt)
    ensures CoreRep(b, o, v, lv, lt)
    decreases v, 0
  {
    match v
    case Simple(t, _, path, _, _) =>
      if t == EnumT { PathStable(a.groups, b.groups, o.enumDef.value.group); }
    case Ctor(_, _, ms, _, _) => VarsStable(a, b, o.members, ms, lv, lt);
  }

  /** A representation survives every change outside its own objects. */
  lemma {:induction false} VarStable(a: Heap, b: Heap, id: Id, v: Var, lv: Id, lt: Id)
    requires VarRep(a, id, v, lv, lt) && HeapKept(a, b, lv, lt)
    ensures VarRep(b, id, v, lv, lt)
    decreases v, 1
  {
    var t := a.vars[id].attrs.value;
    AttrsStable(a.tables, b.tables, a.tables[t], v.attrs, t + 1);
    if v.dims == [] {
      CoreStable(a, b, a.vars[id], v, lv, lt);
    } else {
      DimsStable(a.groups, b.groups, a.vars[id].dims, v.dims);
      CoreStable(a, b, a.vars[a.vars[id].proto], v, lv, lt);
    }
  }

  predicate GroupsKept(a: seq<GroupObj>, b: seq<GroupObj>, lg: Id) {
    |a| <= |b| && forall g :: lg <= g < |a| ==> b[g] == a[g]
  }

  lemma {:induction false} GroupStable(a: Heap, b: Heap, id: Id, g: Group, lg: Id, lv: Id, lt: Id)
    requires GroupRep(a, id, g, lg, lv, lt)
    requires HeapKept(a, b, lv, lt) && GroupsKept(a.groups, b.groups, lg)
    ensures GroupRep(b, id, g, lg, lv, lt)
    decreases g
  {
    var o := a.groups[id];
    VarsStable(a, b, o.vars, g.vars, lv, lt);
    AttrsStable(a.tables, b.tables, a.tables[o.attrs], g.attrs, o.attrs + 1);
    forall i | 0 <= i < |g.groups| ensures GroupRep(b, o.groups[i], g.groups[i], id + 1, lv, lt) {
      GroupStable(a, b, o.groups[i], g.groups[i], id + 1, lv, lt);
    }
  }

  // ---------------------------------------------------------------- weaker bounds

  lemma {:induction false} VarsWeaken(h: Heap, ids: seq<Id>, vs: seq<Var>, lv: Id, lt: Id, lv': Id, lt': Id)
    requires VarsRep(h, ids, vs, lv, lt) && lv' <= lv && lt' <= lt
    ensures VarsRep(h, ids, vs, lv', lt')
    decreases vs, 0
  {
    forall i | 0 <= i < |vs| ensures VarRep(h, ids[i], vs[i], lv', lt') {
      VarWeaken(h, ids[i], vs[i], lv, lt, lv', lt');
    }
  }

  lemma {:induction false} VarWeaken(h: Heap, id: Id, v: Var, lv: Id, lt: Id, lv': Id, lt': Id)
    requires VarRep(h, id, v, lv, lt) && lv' <= lv && lt' <= lt
    ensures VarRep(h, id, v, lv', lt')
    decreases v, 1
  {
    var core := if v.dims == [] then h.vars[id] else h.vars[h.vars[id].proto];
    assert CoreRep(h, core, v, lv, lt);
    if v.Ctor? { VarsWeaken(h, core.members, v.members, lv, lt, lv', lt'); }
    assert CoreRep(h, core, v, lv', lt');
  }

  lemma {:induction false} GroupWeaken(h: Heap, id: Id, g: Group, lg: Id, lv: Id, lt: Id, lg': Id, lv': Id, lt': Id)
    requires GroupRep(h, id, g, lg, lv, lt) && lg' <= lg && lv' <= lv && lt' <= lt
    ensures GroupRep(h, id, g, lg', lv', lt')
    decreases g
  {
    var o := h.groups[id];
    VarsWeaken(h, o.vars, g.vars, lv, lt, lv', lt');
    forall i | 0 <= i < |g.groups| ensures GroupRep(h, o.groups[i], g.groups[i], id + 1, lv', lt') {
      GroupWeaken(h, o.groups[i], g.groups[i], id + 1, lv, lt, id + 1, lv', lt');
    }
  }
}
