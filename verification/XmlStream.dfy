/** Documents as libxml2 reports them: elements and character data, and the flat stream of
    callbacks that a document turns into. */
module XmlStream {

  const DAP4_NS: string := "http://xml.opendap.org/ns/DAP/4.0#"

  type XmlAttrs = map<string, string>

  datatype Node =
    | Elem(uri: string, name: string, xattrs: XmlAttrs, children: seq<Node>)
    | Text(chars: string)

  datatype Event =
    | StartElement(uri: string, name: string, xattrs: XmlAttrs)
    | Characters(chars: string)
    | EndElement(uri: string, name: string)

  function FlattenNode(n: Node): seq<Event>
    decreases n, 1
  {
    match n
    case Text(x) => [Characters(x)]
    case Elem(u, l, xa, kids) => [StartElement(u, l, xa)] + Flatten(kids) + [EndElement(u, l)]
  }

  function Flatten(ns: seq<Node>): seq<Event>
    decreases ns, 0
  {
    if ns == [] then [] else FlattenNode(ns[0]) + Flatten(ns[1..])
  }

  /** An element of the DAP4 namespace. */
  function Dap(name: string, xattrs: XmlAttrs, children: seq<Node>): Node {
    Elem(DAP4_NS, name, xattrs, children)
  }
}

/** The print_dap4 methods: a DMR tree as an XML document. */
module DmrPrinter {
  import opened Text
  import opened DmrTree
  import opened XmlStream

  /** The fully qualified name of a dimension or an enumeration definition. */
  function Fqn(path: seq<string>): string { "/" + Join(path) }

  function PrintValues(vs: seq<string>): seq<Node> {
    if vs == [] then [] else [Dap("Value", map[], [XmlStream.Text(vs[0])])] + PrintValues(vs[1..])
  }

  function PrintAttr(a: Attr): Node
    decreases a, 1
  {
    match a
    case Leaf(n, t, vs) =>
      Dap("Attribute", map["name" := n, "type" := AttrTypeName(t)], PrintValues(vs))
    case Container(n, attrs) =>
      Dap("Attribute", map["name" := n, "type" := "Container"], PrintAttrs(attrs))
  }

  function PrintAttrs(attrs: seq<Attr>): seq<Node>
    decreases attrs, 0
  {
    if attrs == [] then [] else [PrintAttr(attrs[0])] + PrintAttrs(attrs[1..])
  }

  function PrintDim(d: Dim): Node {
    match d
    case Sized(n) => Dap("Dim", map["size" := ShowInt(n)], [])
    case Named(path) => Dap("Dim", map["name" := Fqn(path)], [])
  }

  function PrintDims(dims: seq<Dim>): seq<Node> {
    if dims == [] then [] else [PrintDim(dims[0])] + PrintDims(dims[1..])
  }

  /** A variable without a name gets no name attribute. */
  function VarXattrs(v: Var): XmlAttrs {
    (if v.name == "" then map[] else map["name" := v.name])
    + (if v.Simple? && v.typ == EnumT then map["enum" := Fqn(v.enumPath)] else map[])
  }

  function VarTag(v: Var): string {
    match v
    case Simple(t, _, _, _, _) => TypeName(t)
    case Ctor(s, _, _, _, _) => if s then "Sequence" else "Structure"
  }

  function PrintVar(v: Var): Node
    decreases v, 1
  {
    Dap(VarTag(v), VarXattrs(v),
        (if v.Ctor? then PrintVars(v.members) else []) + PrintDims(v.dims) + PrintAttrs(v.attrs))
  }

  function PrintVars(vs: seq<Var>): seq<Node>
    decreases vs, 0
  {
    if vs == [] then [] else [PrintVar(vs[0])] + PrintVars(vs[1..])
  }

  function PrintDimDef(d: DimDef): Node {
    Dap("Dimension", map["name" := d.name, "size" := ShowInt(d.size)], [])
  }

  function PrintDimDefs(ds: seq<DimDef>): seq<Node> {
    if ds == [] then [] else [PrintDimDef(ds[0])] + PrintDimDefs(ds[1..])
  }

  function PrintConst(c: EnumConst): Node {
    Dap("EnumConst", map["name" := c.tag, "value" := ShowInt(c.value)], [])
  }

  function PrintConsts(cs: seq<EnumConst>): seq<Node> {
    if cs == [] then [] else [PrintConst(cs[0])] + PrintConsts(cs[1..])
  }

  function PrintEnum(e: EnumDef): Node {
    Dap("Enumeration", map["name" := e.name, "basetype" := TypeName(e.basetype)], PrintConsts(e.consts))
  }

  function PrintEnums(es: seq<EnumDef>): seq<Node> {
    if es == [] then [] else [PrintEnum(es[0])] + PrintEnums(es[1..])
  }

  /** What every group holds, in the order D4Group writes it: attributes after the
      variables and before the child groups. */
  function PrintBody(g: Group): seq<Node>
    decreases g, 0
  {
    PrintDimDefs(g.dims) + (PrintEnums(g.enums) + (PrintVars(g.vars)
    + (PrintAttrs(g.attrs) + PrintGroups(g.groups))))
  }

  function PrintGroup(g: Group): Node
    decreases g, 1
  {
    Dap("Group", map["name" := g.name], PrintBody(g))
  }

  function PrintGroups(gs: seq<Group>): seq<Node>
    decreases gs, 0
  {
    if gs == [] then [] else [PrintGroup(gs[0])] + PrintGroups(gs[1..])
  }

  function PrintDmr(d: Dmr): Node {
    Dap("Dataset", map["name" := d.name], PrintBody(d.root))
  }
}
