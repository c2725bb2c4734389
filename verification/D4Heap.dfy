/** The objects the DMR reader builds and the pointers between them.  A pointer is an index
    into one of three arenas, so two stacks can hold the same object and an update made
    through one is seen through the other. */
module D4Heap {
  import opened Wrappers
  import opened Text
  import opened DmrTree

  type Id = nat

  /** D4Attribute; `child` points at the table of a container. */
  datatype AttrObj = AttrObj(name: string, typ: AttrType, values: seq<string>, child: Option<Id>)

  /** A pointer to a D4EnumDef or a D4Dimension: the group that owns it and its position. */
  datatype DefRef = DefRef(group: Id, index: nat)

  /** Array::dimension, as far as the unconstrained DMR is concerned. */
  datatype DimObj = Local(size: int, name: string) | Shared(dim: DefRef)

  /** A BaseType.  Only the prototype of an array has no attribute table. */
  datatype VarObj =
    | SimpleObj(typ: Type, name: string, enumDef: Option<DefRef>, attrs: Option<Id>)
    | CtorObj(sequence: bool, name: string, members: seq<Id>, attrs: Option<Id>)
    | ArrayObj(name: string, proto: Id, dims: seq<DimObj>, attrs: Option<Id>)

  datatype GroupObj = GroupObj(name: string, parent: Option<Id>, dims: seq<DimDef>,
                               enums: seq<EnumDef>, vars: seq<Id>, groups: seq<Id>, attrs: Id)

  datatype Heap = Heap(tables: seq<seq<AttrObj>>, vars: seq<VarObj>, groups: seq<GroupObj>)

  const ROOT: Id := 0

  /** A fresh DMR: the root group with its attribute table. */
  const NEW_HEAP: Heap := Heap([[]], [], [GroupObj("/", None, [], [], [], [], 0)])

  // ---------------------------------------------------------------- looking things up

  /** First position holding an element with this name. */
  function IndexOfDim(ds: seq<DimDef>, name: string): Option<nat> {
    if ds == [] then None
    else if ds[0].name == name then Some(0)
    else match IndexOfDim(ds[1..], name) case None => None case Some(i) => Some(i + 1)
  }

  function IndexOfEnum(es: seq<EnumDef>, name: string): Option<nat> {
    if es == [] then None
    else if es[0].name == name then Some(0)
    else match IndexOfEnum(es[1..], name) case None => None case Some(i) => Some(i + 1)
  }

  /** D4Group::find_child_grp over the list of child pointers. */
  function FindChild(gs: seq<GroupObj>, kids: seq<Id>, name: string): Option<Id> {
    if kids == [] then None
    else if kids[0] < |gs| && gs[kids[0]].name == name then Some(kids[0])
    else FindChild(gs, kids[1..], name)
  }

  /** The outcome of a lookup by path; a leading slash below the root throws. */
  datatype Lookup = Found(ref: DefRef) | NotFound | Throws

  /** D4Group::find_dim. */
  function FindDim(gs: seq<GroupObj>, g: Id, path: string): Lookup
    decreases |path|, 1
  {
    if g >= |gs| then NotFound
    else if path == [] || path[0] != '/' then FindDimBelow(gs, g, path)
    else if gs[g].name != "/" then Throws
    else FindDimBelow(gs, g, path[1..])
  }

  /** The lookup once the leading slash is gone. */
  function FindDimBelow(gs: seq<GroupObj>, g: Id, lpath: string): Lookup
    requires g < |gs|
    decreases |lpath|, 0
  {
    var pos := Find(lpath, '/');
    if pos == |lpath| then
      match IndexOfDim(gs[g].dims, lpath)
      case None => NotFound
      case Some(i) => Found(DefRef(g, i))
    else
      match FindChild(gs, gs[g].groups, lpath[..pos])
      case None => NotFound
      case Some(c) => FindDim(gs, c, lpath[pos + 1..])
  }

  /** D4Group::find_enum_def, which goes down one group and no further. */
  function FindEnumDef(gs: seq<GroupObj>, g: Id, path: string): Lookup {
    if g >= |gs| then NotFound
    else if path == [] || path[0] != '/' then FindEnumBelow(gs, g, path)
    else if gs[g].name != "/" then Throws
    else FindEnumBelow(gs, g, path[1..])
  }

  function FindEnumBelow(gs: seq<GroupObj>, g: Id, lpath: string): Lookup
    requires g < |gs|
  {
    var pos := Find(lpath, '/');
    if pos == |lpath| then EnumIn(gs, g, lpath)
    else
      match FindChild(gs, gs[g].groups, lpath[..pos])
      case None => NotFound
      case Some(c) => EnumIn(gs, c, lpath[pos + 1..])
  }

  function EnumIn(gs: seq<GroupObj>, g: Id, name: string): Lookup {
    if g >= |gs| then NotFound
    else
      match IndexOfEnum(gs[g].enums, name)
      case None => NotFound
      case Some(i) => Found(DefRef(g, i))
  }

  /** Position of the first attribute with this name (a container when asked for one). */
  function IndexOfAttr(t: seq<AttrObj>, name: string, container: bool): (r: Option<nat>)
    ensures r.Some? ==> r.value < |t|
  {
    if t == [] then None
    else if t[0].name == name && (container ==> t[0].typ == ContainerA) then Some(0)
    else match IndexOfAttr(t[1..], name, container) case None => None case Some(i) => Some(i + 1)
  }

  /** D4Attributes::get: the table and position of an attribute named by a dotted path. */
  function GetAttr(ts: seq<seq<AttrObj>>, t: Id, fqn: string): (r: Option<(Id, nat)>)
    ensures r.Some? ==> r.value.0 < |ts| && r.value.1 < |ts[r.value.0]|
    decreases |fqn|
  {
    var pos := Find(fqn, '.');
    var part := fqn[..pos];
    var rest := if pos < |fqn| then fqn[pos + 1..] else "";
    if t >= |ts| || part == "" then None
    else if rest != "" then
      match IndexOfAttr(ts[t], part, true)
      case None => None
      case Some(i) =>
        (match ts[t][i].child
         case None => None
         case Some(c) => GetAttr(ts, c, rest))
    else
      match IndexOfAttr(ts[t], part, false)
      case None => None
      case Some(i) => Some((t, i))
  }

  // ---------------------------------------------------------------- changing the objects

  function WithTable(h: Heap, t: Id, objs: seq<AttrObj>): Heap
    requires t < |h.tables|
  {
    h.(tables := h.tables[t := objs])
  }

  function WithVar(h: Heap, v: Id, o: VarObj): Heap
    requires v < |h.vars|
  {
    h.(vars := h.vars[v := o])
  }

  function WithGroup(h: Heap, g: Id, o: GroupObj): Heap
    requires g < |h.groups|
  {
    h.(groups := h.groups[g := o])
  }

  /** Where a finished variable goes: into another variable or into a group. */
  datatype Parent = InVar(v: Id) | InGroup(g: Id)

  predicate ValidParent(h: Heap, p: Parent) {
    match p
    case InVar(v) => v < |h.vars|
    case InGroup(g) => g < |h.groups|
  }

  /** add_var_nocopy, which throws on a simple variable (None). */
  function AddVar(h: Heap, p: Parent, child: Id): Option<Heap>
    requires ValidParent(h, p)
  {
    match p
    case InGroup(g) => Some(WithGroup(h, g, h.groups[g].(vars := h.groups[g].vars + [child])))
    case InVar(v) =>
      match h.vars[v]
      case SimpleObj(_, _, _, _) => None
      case CtorObj(_, _, ms, _) => Some(WithVar(h, v, h.vars[v].(members := ms + [child])))
      case ArrayObj(_, _, _, _) => SetProto(h, v, child)
  }

  /** Array::add_var_nocopy: the array takes the child as its prototype; from a child that
      is itself an array it takes the prototype and, as plain extents, the dimensions. */
  function SetProto(h: Heap, a: Id, child: Id): Option<Heap>
    requires a < |h.vars| && h.vars[a].ArrayObj?
  {
    if child >= |h.vars| then None
    else
      var isArray := h.vars[child].ArrayObj?;
      var proto := if isArray then h.vars[child].proto else child;
      if proto >= |h.vars| then None
      else
        var extra := if isArray then Extents(h, h.vars[child].dims) else [];
        var named := h.vars[proto].name != "";
        var name := Www2Id(if named then h.vars[proto].name else h.vars[a].name);
        var h1 := WithVar(h, proto, h.vars[proto].(name := name));
        Some(WithVar(h1, a, ArrayObj(if named then name else h.vars[a].name, proto,
                                     h.vars[a].dims + extra, h.vars[a].attrs)))
  }

  /** The array that the reader puts around a variable at its first Dim: it takes over the
      variable's attribute table and becomes the last object of the arena. */
  function MakeArray(h: Heap, b: Id): Heap
    requires b < |h.vars|
  {
    var name := Www2Id(h.vars[b].name);
    var h1 := WithVar(h, b, h.vars[b].(name := name, attrs := None));
    h1.(vars := h1.vars + [ArrayObj(name, b, [], h.vars[b].attrs)])
  }

  function Extents(h: Heap, ds: seq<DimObj>): seq<DimObj> {
    if ds == [] then []
    else
      var d := match ds[0]
        case Local(n, name) => Local(n, Www2Id(name))
        case Shared(r) =>
          if r.group < |h.groups| && r.index < |h.groups[r.group].dims| then
            Local(h.groups[r.group].dims[r.index].size, Www2Id(h.groups[r.group].dims[r.index].name))
          else Local(0, "");
      [d] + Extents(h, ds[1..])
  }
}
