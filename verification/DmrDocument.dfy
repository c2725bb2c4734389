/** Which documents describe a DMR: the printed one, and those that name dimensions and
    enumerations from the current group on. */
module DmrDocument {
  import opened Wrappers
  import opened Text
  import opened DmrTree
  import opened XmlStream
  import opened DmrPrinter
  import opened D4Heap
  import opened DmrRep
  import opened DmrLookup
  import opened DmrReadAttrs
  import opened DmrReadVars

  // ---------------------------------------------------------------- well-formed trees

  type Paths = set<seq<string>>

  predicate WfDim(d: Dim, sd: Paths) {
    match d
    case Sized(n) => 0 <= n < TWO_TO_31
    case Named(path) => path in sd
  }

  /** A variable whose shared dimensions are among `sd` and whose enumeration is in `se`.  An
      array's name goes through WWW decoding, so it may not contain an escape. */
  predicate WfVar(v: Var, sd: Paths, se: Paths)
    decreases v, 0
  {
    && v.name != "" && (v.dims != [] ==> Free(v.name, '%'))
    && (forall i :: 0 <= i < |v.dims| ==> WfDim(v.dims[i], sd))
    && WfAttrs(v.attrs)
    && match v
       case Simple(t, _, path, _, _) =>
         IsSimpleType(t) && if t == EnumT then path in se else path == []
       case Ctor(_, _, ms, _, _) => WfVars(ms, sd, se)
  }

  predicate WfVars(vs: seq<Var>, sd: Paths, se: Paths)
    decreases vs, 1
  {
    forall i :: 0 <= i < |vs| ==> WfVar(vs[i], sd, se)
  }

  /** The groups built so far resolve every path in the two sets. */
  predicate Known(gs: seq<GroupObj>, sd: Paths, se: Paths) {
    && (forall path :: path in sd ==> DimKnown(gs, path))
    && (forall path :: path in se ==> EnumKnown(gs, path))
  }

  predicate WfDimDef(d: DimDef) { Free(d.name, '/') && 0 <= d.size < TWO_TO_64 }

  predicate WfConst(t: Type, c: EnumConst) {
    IsValidEnumValue(t, c.value) && -TWO_TO_63 <= c.value < TWO_TO_63
  }

  predicate WfEnum(e: EnumDef) {
    Free(e.name, '/') && IsIntegerType(e.basetype)
    && forall i :: 0 <= i < |e.consts| ==> WfConst(e.basetype, e.consts[i])
  }

  function DimPaths(ds: seq<DimDef>, path: seq<string>): Paths {
    set i | 0 <= i < |ds| :: path + [ds[i].name]
  }

  /** Only the root and its children can be asked for an enumeration. */
  function EnumPaths(es: seq<EnumDef>, path: seq<string>): Paths {
    if |path| <= 1 then set i | 0 <= i < |es| :: path + [es[i].name] else {}
  }

  function AllDims(g: Group, path: seq<string>): Paths
    decreases g, 0
  {
    DimPaths(g.dims, path) + AllDimsOf(g.groups, path)
  }

  function AllDimsOf(gs: seq<Group>, path: seq<string>): Paths
    decreases gs, 1
  {
    if gs == [] then {} else AllDims(gs[0], path + [gs[0].name]) + AllDimsOf(gs[1..], path)
  }

  function AllEnums(g: Group, path: seq<string>): Paths
    decreases g, 0
  {
    EnumPaths(g.enums, path) + AllEnumsOf(g.groups, path)
  }

  function AllEnumsOf(gs: seq<Group>, path: seq<string>): Paths
    decreases gs, 1
  {
    if gs == [] then {} else AllEnums(gs[0], path + [gs[0].name]) + AllEnumsOf(gs[1..], path)
  }

  /** A group that may use the dimensions `sd` and enumerations `se` declared before it in
      document order, and its own. */
  predicate WfGroup(g: Group, path: seq<string>, sd: Paths, se: Paths)
    decreases g, 0
  {
    && (forall i :: 0 <= i < |g.dims| ==> WfDimDef(g.dims[i]))
    && (forall i :: 0 <= i < |g.enums| ==> WfEnum(g.enums[i]))
    && WfVars(g.vars, sd + DimPaths(g.dims, path), se + EnumPaths(g.enums, path))
    && WfAttrs(g.attrs)
    && WfGroups(g.groups, path, sd + DimPaths(g.dims, path), se + EnumPaths(g.enums, path))
  }

  /** Sibling groups have distinct names without slashes; each may use what the earlier
      ones declare. */
  predicate WfGroups(gs: seq<Group>, path: seq<string>, sd: Paths, se: Paths)
    decreases gs, 1
  {
    gs == []
    || (&& GroupName(gs[0].name)
        && (forall i :: 0 < i < |gs| ==> gs[i].name != gs[0].name)
        && WfGroup(gs[0], path + [gs[0].name], sd, se)
        && WfGroups(gs[1..], path, sd + AllDims(gs[0], path + [gs[0].name]),
                    se + AllEnums(gs[0], path + [gs[0].name])))
  }

  predicate WfDmr(d: Dmr) { d.root.name == "/" && WfGroup(d.root, [], {}, {}) }

  /** The number of groups below the root. */
  function CountGroups(gs: seq<Group>): nat {
    if gs == [] then 0 else 1 + CountGroups(gs[0].groups) + CountGroups(gs[1..])
  }

  // ---------------------------------------------------------------- documents

  /** A path that goes on below a group, so that it can be written from there. */
  predicate Below(path: seq<string>, here: seq<string>) {
    |here| < |path| && path[..|here|] == here && Relative(path[|here|..])
  }

  /** A Dim element inside the group at `here`: a number, or one of the dimensions `sd`, named in
      full or from the group on. */
  predicate DimDoc(n: Node, d: Dim, here: seq<string>, sd: Paths) {
    match d
    case Sized(k) => 0 <= k < TWO_TO_31 && n == PrintDim(d)
    case Named(path) =>
      path in sd
      && (n == PrintDim(d) || (Below(path, here) && n == Dap("Dim", map["name" := Join(path[|here|..])], [])))
  }

  predicate DimDocs(ns: seq<Node>, ds: seq<Dim>, here: seq<string>, sd: Paths) {
    |ns| == |ds| && forall i :: 0 <= i < |ds| ==> DimDoc(ns[i], ds[i], here, sd)
  }

  /** The attributes of a variable's start tag: an enumeration is one of `se`, named in full, or
      one of the group's own, named by itself. */
  predicate TagDoc(xa: XmlAttrs, v: Var, se: Paths, own: Paths) {
    match v
    case Ctor(_, n, _, _, _) => xa == map["name" := n]
    case Simple(t, n, path, _, _) =>
      && IsSimpleType(t)
      && if t == EnumT then
           || (path in se && xa == map["name" := n, "enum" := Fqn(path)])
           || (path in own && path != [] && xa == map["name" := n, "enum" := path[|path| - 1]])
         else xa == map["name" := n] && path == []
  }

  /** The element of a variable: its members, its extents and its attributes. */
  predicate VarDoc(n: Node, v: Var, here: seq<string>, sd: Paths, se: Paths, own: Paths)
    decreases v, 0
  {
    && n.Elem? && n.uri == DAP4_NS && n.name == VarTag(v) && TagDoc(n.xattrs, v, se, own)
    && v.name != "" && (v.dims != [] ==> Free(v.name, '%')) && WfAttrs(v.attrs)
    && MemberCount(v) + |v.dims| <= |n.children|
    && (v.Ctor? ==> VarDocs(MemberPart(n, v), v.members, here, sd, se, own))
    && DimDocs(DimPart(n, v), v.dims, here, sd)
    && n.children[MemberCount(v) + |v.dims|..] == PrintAttrs(v.attrs)
  }

  predicate VarDocs(ns: seq<Node>, vs: seq<Var>, here: seq<string>, sd: Paths, se: Paths, own: Paths)
    decreases vs, 1
  {
    |ns| == |vs| && forall i :: 0 <= i < |vs| ==> VarDoc(ns[i], vs[i], here, sd, se, own)
  }

  /** The enumerations of a group itself, at any depth. */
  function OwnEnums(es: seq<EnumDef>, path: seq<string>): Paths {
    set i | 0 <= i < |es| :: path + [es[i].name]
  }

  function Definitions(g: Group): seq<Node> { PrintDimDefs(g.dims) + PrintEnums(g.enums) }

  /** The number of children before the child groups. */
  function Lead(g: Group): nat { |Definitions(g)| + |g.vars| + |PrintAttrs(g.attrs)| }

  function VarPart(ns: seq<Node>, g: Group): seq<Node>
    requires Lead(g) <= |ns|
  {
    ns[|Definitions(g)|..|Definitions(g)| + |g.vars|]
  }

  /** What stands between the tags of a group: definitions, variables, attributes, groups. */
  predicate GroupBody(ns: seq<Node>, g: Group, path: seq<string>, sd: Paths, se: Paths)
    decreases g, 0
  {
    && (forall i :: 0 <= i < |g.dims| ==> WfDimDef(g.dims[i]))
    && (forall i :: 0 <= i < |g.enums| ==> WfEnum(g.enums[i]))
    && WfAttrs(g.attrs)
    && Lead(g) <= |ns| && ns[..|Definitions(g)|] == Definitions(g)
    && VarDocs(VarPart(ns, g), g.vars, path, sd + DimPaths(g.dims, path), se + EnumPaths(g.enums, path),
               OwnEnums(g.enums, path))
    && ns[|Definitions(g)| + |g.vars|..Lead(g)] == PrintAttrs(g.attrs)
    && GroupDocs(ns[Lead(g)..], g.groups, path, sd + DimPaths(g.dims, path), se + EnumPaths(g.enums, path))
  }

  predicate GroupDoc(n: Node, g: Group, path: seq<string>, sd: Paths, se: Paths)
    decreases g, 1
  {
    n.Elem? && n == Dap("Group", map["name" := g.name], n.children) && GroupBody(n.children, g, path, sd, se)
  }

  /** Sibling groups have distinct names without slashes; each may use what the earlier ones
      declare. */
  predicate GroupDocs(ns: seq<Node>, gs: seq<Group>, path: seq<string>, sd: Paths, se: Paths)
    decreases gs, 1
  {
    |ns| == |gs|
    && (gs == []
        || (&& GroupName(gs[0].name)
            && (forall i :: 0 < i < |gs| ==> gs[i].name != gs[0].name)
            && GroupDoc(ns[0], gs[0], path + [gs[0].name], sd, se)
            && GroupDocs(ns[1..], gs[1..], path, sd + AllDims(gs[0], path + [gs[0].name]),
                         se + AllEnums(gs[0], path + [gs[0].name]))))
  }

  /** A document that describes d. */
  predicate Describes(n: Node, d: Dmr) {
    && n.Elem? && n == Dap("Dataset", map["name" := d.name], n.children)
    && d.root.name == "/" && GroupBody(n.children, d.root, [], {}, {})
  }

  // ---------------------------------------------------------------- the printed document

  lemma {:induction false} PrintedVar(v: Var, here: seq<string>, sd: Paths, se: Paths, own: Paths)
    requires WfVar(v, sd, se)
    ensures VarDoc(PrintVar(v), v, here, sd, se, own)
    decreases v, 0
  {
    hide VarDoc, VarDocs, DimDocs, TagDoc, WfAttrs;
    PrintedDims(v.dims, here, sd);
    PrintDimsCount(v.dims);
    var ms := if v.Ctor? then PrintVars(v.members) else [];
    if v.Ctor? {
      PrintVarsCount(v.members);
      forall i | 0 <= i < |v.members| ensures VarDoc(PrintVars(v.members)[i], v.members[i], here, sd, se, own) {
        assert WfVar(v.members[i], sd, se);
        PrintedVar(v.members[i], here, sd, se, own);
      }
      VarDocsOf(PrintVars(v.members), v.members, here, sd, se, own);
    }
    PrintedTag(v, sd, se, own);
    ElementOf(v, VarXattrs(v), ms, PrintDims(v.dims), here, sd, se, own);
  }

  lemma VarDocsOf(ns: seq<Node>, vs: seq<Var>, here: seq<string>, sd: Paths, se: Paths, own: Paths)
    requires |ns| == |vs| && forall i :: 0 <= i < |vs| ==> VarDoc(ns[i], vs[i], here, sd, se, own)
    ensures VarDocs(ns, vs, here, sd, se, own)
  {
  }

  lemma PrintedTag(v: Var, sd: Paths, se: Paths, own: Paths)
    requires WfVar(v, sd, se)
    ensures TagDoc(VarXattrs(v), v, se, own)
  {
    hide WfAttrs, WfVars, Fqn;
  }

  lemma PrintedDims(ds: seq<Dim>, here: seq<string>, sd: Paths)
    requires forall i :: 0 <= i < |ds| ==> WfDim(ds[i], sd)
    ensures DimDocs(PrintDims(ds), ds, here, sd)
  {
    hide PrintDim, PrintDims, Below;
    PrintDimsCount(ds);
    forall i | 0 <= i < |ds| ensures DimDoc(PrintDims(ds)[i], ds[i], here, sd) {
      assert WfDim(ds[i], sd);
    }
  }

  /** The element of a variable from its parts. */
  lemma ElementOf(v: Var, xa: XmlAttrs, ms: seq<Node>, ds: seq<Node>, here: seq<string>, sd: Paths, se: Paths,
                  own: Paths)
    requires TagDoc(xa, v, se, own) && v.name != "" && (v.dims != [] ==> Free(v.name, '%')) && WfAttrs(v.attrs)
    requires |ms| == MemberCount(v) && (v.Ctor? ==> VarDocs(ms, v.members, here, sd, se, own))
    requires |ds| == |v.dims| && DimDocs(ds, v.dims, here, sd)
    ensures VarDoc(Dap(VarTag(v), xa, ms + ds + PrintAttrs(v.attrs)), v, here, sd, se, own)
  {
    hide TagDoc, VarDocs, DimDocs, WfAttrs, PrintAttrs, VarTag, Free;
    var kids := ms + ds + PrintAttrs(v.attrs);
    assert kids[..|ms|] == ms && kids[|ms|..|ms| + |ds|] == ds && kids[|ms| + |ds|..] == PrintAttrs(v.attrs);
  }

  lemma {:induction false} PrintDimsCount(ds: seq<Dim>)
    ensures |PrintDims(ds)| == |ds| && forall i :: 0 <= i < |ds| ==> PrintDims(ds)[i] == PrintDim(ds[i])
    decreases |ds|
  {
    if ds != [] { PrintDimsCount(ds[1..]); }
  }

  lemma {:induction false} PrintVarsCount(vs: seq<Var>)
    ensures |PrintVars(vs)| == |vs| && forall i :: 0 <= i < |vs| ==> PrintVars(vs)[i] == PrintVar(vs[i])
    decreases |vs|
  {
    if vs != [] { PrintVarsCount(vs[1..]); }
  }

  lemma PrintedVars(vs: seq<Var>, here: seq<string>, sd: Paths, se: Paths, own: Paths)
    requires WfVars(vs, sd, se)
    ensures VarDocs(PrintVars(vs), vs, here, sd, se, own)
  {
    hide WfVar, VarDoc, PrintVar;
    PrintVarsCount(vs);
    forall i | 0 <= i < |vs| ensures VarDoc(PrintVars(vs)[i], vs[i], here, sd, se, own) {
      PrintedVar(vs[i], here, sd, se, own);
    }
  }

  lemma {:induction false} PrintedBody(g: Group, path: seq<string>, sd: Paths, se: Paths)
    requires WfGroup(g, path, sd, se)
    ensures GroupBody(PrintBody(g), g, path, sd, se)
    decreases g, 0
  {
    hide GroupBody, VarDocs, GroupDocs, WfDimDef, WfEnum, WfAttrs, WfVars, WfGroups, DimPaths, EnumPaths, OwnEnums;
    var sd1, se1 := sd + DimPaths(g.dims, path), se + EnumPaths(g.enums, path);
    PrintedVars(g.vars, path, sd1, se1, OwnEnums(g.enums, path));
    PrintVarsCount(g.vars);
    PrintedGroups(g.groups, path, sd1, se1);
    BodyOf(g, PrintVars(g.vars), PrintGroups(g.groups), path, sd, se);
    Regroup(PrintDimDefs(g.dims), PrintEnums(g.enums), PrintVars(g.vars), PrintAttrs(g.attrs), PrintGroups(g.groups));
  }

  lemma BodyOf(g: Group, vs: seq<Node>, kids: seq<Node>, path: seq<string>, sd: Paths, se: Paths)
    requires forall i :: 0 <= i < |g.dims| ==> WfDimDef(g.dims[i])
    requires forall i :: 0 <= i < |g.enums| ==> WfEnum(g.enums[i])
    requires WfAttrs(g.attrs) && |vs| == |g.vars|
    requires VarDocs(vs, g.vars, path, sd + DimPaths(g.dims, path), se + EnumPaths(g.enums, path),
                     OwnEnums(g.enums, path))
    requires GroupDocs(kids, g.groups, path, sd + DimPaths(g.dims, path), se + EnumPaths(g.enums, path))
    ensures GroupBody(Definitions(g) + (vs + (PrintAttrs(g.attrs) + kids)), g, path, sd, se)
  {
    hide VarDocs, GroupDocs, WfDimDef, WfEnum, WfAttrs, DimPaths, EnumPaths, OwnEnums, Definitions, PrintAttrs;
    Parts(Definitions(g), vs, PrintAttrs(g.attrs), kids);
  }

  lemma Regroup(d: seq<Node>, e: seq<Node>, v: seq<Node>, a: seq<Node>, k: seq<Node>)
    ensures d + (e + (v + (a + k))) == (d + e) + (v + (a + k))
  {
  }

  lemma Parts(d: seq<Node>, v: seq<Node>, a: seq<Node>, k: seq<Node>)
    ensures var ns := d + (v + (a + k)); var i := |d|; var j := i + |v|; var l := j + |a|;
      l <= |ns| && ns[..i] == d && ns[i..j] == v && ns[j..l] == a && ns[l..] == k
  {
  }

  lemma {:induction false} PrintedGroups(gs: seq<Group>, path: seq<string>, sd: Paths, se: Paths)
    requires WfGroups(gs, path, sd, se)
    ensures GroupDocs(PrintGroups(gs), gs, path, sd, se)
    decreases gs, 1
  {
    if gs != [] {
      hide GroupBody, WfGroup, PrintBody, AllDims, AllEnums;
      PrintedBody(gs[0], path + [gs[0].name], sd, se);
      PrintedGroups(gs[1..], path, sd + AllDims(gs[0], path + [gs[0].name]), se + AllEnums(gs[0], path + [gs[0].name]));
      assert PrintGroups(gs)[1..] == PrintGroups(gs[1..]);
    }
  }

  /** The printed form of a well-formed DMR describes it. */
  lemma PrintedDescribes(d: Dmr)
    requires WfDmr(d)
    ensures Describes(PrintDmr(d), d)
  {
    PrintedBody(d.root, [], {}, {});
  }

  // ---------------------------------------------------------------- what elements come to say

  /** The group's own enumerations are found by their names. */
  predicate EnumsHere(gs: seq<GroupObj>, g: Id, own: Paths) {
    forall path :: path in own && path != [] ==>
      && Free(path[|path| - 1], '/')
      && var r := FindEnumDef(gs, g, path[|path| - 1]);
         r.Found? && EnumRefRep(gs, r.ref, path)
  }

  lemma SaidDims(gs: seq<GroupObj>, g: Id, here: seq<string>, ns: seq<Node>, ds: seq<Dim>, sd: Paths, se: Paths)
    requires Placed(gs, g, here) && Known(gs, sd, se) && DimDocs(ns, ds, here, sd)
    ensures SaysDims(gs, g, ns, ds)
  {
    forall i | 0 <= i < |ds| ensures SaysDim(gs, g, ns[i], ds[i]) {
      assert DimDoc(ns[i], ds[i], here, sd);
      match ds[i] {
        case Sized(_) =>
        case Named(path) =>
          assert DimKnown(gs, path);
          var s := ns[i].xattrs["name"];
          if s == Fqn(path) {
            assert s[0] == '/';
          } else {
            NoLeadingSlash(path[|here|..]);
            RelativeDim(gs, g, here, path[|here|..]);
            assert here + path[|here|..] == path;
          }
      }
    }
  }

  lemma SaidTag(gs: seq<GroupObj>, g: Id, xa: XmlAttrs, v: Var, sd: Paths, se: Paths, own: Paths)
    requires Known(gs, sd, se) && EnumsHere(gs, g, own) && TagDoc(xa, v, se, own)
    ensures SaysTag(gs, g, xa, v)
  {
    if v.Simple? && v.typ == EnumT {
      if v.enumPath in se && xa["enum"] == Fqn(v.enumPath) {
        assert EnumKnown(gs, v.enumPath) && xa["enum"][0] == '/';
      }
    }
  }

  /** A document's variables say what they should once the groups resolve its names. */
  lemma {:induction false} SaidVars(gs: seq<GroupObj>, g: Id, here: seq<string>, ns: seq<Node>, vs: seq<Var>,
                                    sd: Paths, se: Paths, own: Paths)
    requires Placed(gs, g, here) && Known(gs, sd, se) && EnumsHere(gs, g, own)
    requires VarDocs(ns, vs, here, sd, se, own)
    ensures SaysVars(gs, g, ns, vs)
    decreases vs
  {
    hide Placed, Known, EnumsHere, TagDoc, SaysTag, DimDocs, SaysDims;
    forall i | 0 <= i < |vs| ensures SaysVar(gs, g, ns[i], vs[i]) {
      var n, v := ns[i], vs[i];
      assert VarDoc(n, v, here, sd, se, own);
      SaidTag(gs, g, n.xattrs, v, sd, se, own);
      SaidDims(gs, g, here, DimPart(n, v), v.dims, sd, se);
      if v.Ctor? { SaidVars(gs, g, here, MemberPart(n, v), v.members, sd, se, own); }
    }
  }
}
