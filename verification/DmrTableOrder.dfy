/** Which attribute tables can be reached: tables that are made from some moment on never lead
    back to older ones. */
module DmrTableOrder {
  import opened Wrappers
  import opened Text
  import opened DmrTree
  import opened XmlStream
  import opened D4Heap
  import opened D4Parser

  /** Containers in tables from `lo` on have their own tables there, too. */
  predicate Above(ts: seq<seq<AttrObj>>, lo: Id) {
    && lo <= |ts|
    && forall t, i :: lo <= t < |ts| && 0 <= i < |ts[t]| && ts[t][i].child.Some? ==> lo <= ts[t][i].child.value < |ts|
  }

  lemma {:induction false} GetAbove(ts: seq<seq<AttrObj>>, t: Id, fqn: string, lo: Id)
    requires Above(ts, lo) && lo <= t
    ensures var r := GetAttr(ts, t, fqn); r.Some? ==> lo <= r.value.0
    decreases |fqn|
  {
    var pos := Find(fqn, '.');
    var part := fqn[..pos];
    var rest := if pos < |fqn| then fqn[pos + 1..] else "";
    hide Above, IndexOfAttr, Find;
    if t < |ts| && part != "" && rest != "" {
      var i := IndexOfAttr(ts[t], part, true);
      if i.Some? && ts[t][i.value].child.Some? {
        ChildAbove(ts, t, i.value, lo);
        GetAbove(ts, ts[t][i.value].child.value, rest, lo);
      }
    }
  }

  lemma ChildAbove(ts: seq<seq<AttrObj>>, t: Id, i: nat, lo: Id)
    requires Above(ts, lo) && lo <= t < |ts| && i < |ts[t]| && ts[t][i].child.Some?
    ensures lo <= ts[t][i].child.value
  {
  }

  lemma NewTable(ts: seq<seq<AttrObj>>, lo: Id)
    requires Above(ts, lo)
    ensures Above(ts + [[]], lo)
  {
  }

  lemma AttributeAbove(p: Reader, name: string, xa: XmlAttrs, lo: Id)
    requires Above(p.heap.tables, lo)
    ensures Above(ProcessAttribute(p, name, xa).0.heap.tables, lo)
  {
  }

  lemma GroupAbove(p: Reader, name: string, xa: XmlAttrs, lo: Id)
    requires Above(p.heap.tables, lo)
    ensures Above(ProcessGroup(p, name, xa).0.heap.tables, lo)
  {
    NewTable(p.heap.tables, lo);
    hide Above;
  }

  lemma VariableAbove(p: Reader, name: string, xa: XmlAttrs, lo: Id)
    requires Above(p.heap.tables, lo)
    ensures Above(ProcessVariable(p, name, xa).0.heap.tables, lo)
  {
    NewTable(p.heap.tables, lo);
    hide Above, LookupEnum, GetType, NewObject;
  }

  lemma DimensionKeeps(p: Reader, name: string, xa: XmlAttrs)
    ensures ProcessDimension(p, name, xa).0.heap.tables == p.heap.tables
  {
    hide LookupDim;
  }

  lemma DefinitionsKeep(p: Reader, name: string, xa: XmlAttrs)
    ensures ProcessEnumDef(p, name, xa).0.heap == p.heap
    ensures ProcessDimensionDef(p, name, xa).0.heap == p.heap
    ensures ProcessEnumConst(p, name, xa).0.heap == p.heap
  {
  }

  lemma StartInGroupAbove(p: Reader, name: string, xa: XmlAttrs, lo: Id)
    requires Above(p.heap.tables, lo)
    ensures Above(StartInGroup(p, name, xa).heap.tables, lo)
  {
    hide Above, ProcessEnumDef, ProcessDimensionDef, ProcessGroup, ProcessVariable, ProcessAttribute;
    DefinitionsKeep(p, name, xa);
    var p1 := ProcessEnumDef(p, name, xa).0;
    DefinitionsKeep(p1, name, xa);
    var p2 := ProcessDimensionDef(p1, name, xa).0;
    GroupAbove(p2, name, xa, lo);
    var p3 := ProcessGroup(p2, name, xa).0;
    VariableAbove(p3, name, xa, lo);
    AttributeAbove(ProcessVariable(p3, name, xa).0, name, xa, lo);
  }

  lemma StartInVariableAbove(p: Reader, name: string, xa: XmlAttrs, lo: Id)
    requires Above(p.heap.tables, lo)
    ensures Above(StartInVariable(p, name, xa).heap.tables, lo)
  {
    hide Above, ProcessAttribute, ProcessDimension;
    AttributeAbove(p, name, xa, lo);
    DimensionKeeps(ProcessAttribute(p, name, xa).0, name, xa);
  }

  lemma StartAbove(p: Reader, uri: string, name: string, xa: XmlAttrs, lo: Id)
    requires Above(p.heap.tables, lo)
    ensures Above(Start(p, uri, name, xa).heap.tables, lo)
  {
    hide Above, ProcessAttribute, ProcessVariable, ProcessEnumConst, StartInGroup, StartInVariable;
    if !p.stopped && p.s.Push? {
      var q := if p.s.top != ParserError && uri != DAP4_NS then Enter(p, NotDap4Element) else p;
      match q.s.top
      case InsideDataset => StartInGroupAbove(q, name, xa, lo);
      case InsideGroup => StartInGroupAbove(q, name, xa, lo);
      case InsideAttributeContainer => AttributeAbove(q, name, xa, lo);
      case InsideAttribute => AttributeAbove(q, name, xa, lo);
      case InsideEnumDef => DefinitionsKeep(q, name, xa);
      case InsideSimpleType => StartInVariableAbove(q, name, xa, lo);
      case InsideConstructor =>
        VariableAbove(q, name, xa, lo);
        StartInVariableAbove(ProcessVariable(q, name, xa).0, name, xa, lo);
      case _ =>
    }
  }

  lemma ValueAbove(p: Reader, lo: Id)
    requires Above(p.heap.tables, lo)
    ensures Above(EndValue(p).heap.tables, lo)
  {
    hide GetAttr;
  }

  lemma AddVarKeeps(h: Heap, p: Parent, child: Id)
    requires ValidParent(h, p)
    ensures var r := AddVar(h, p, child); r.Some? ==> r.value.tables == h.tables
  {
  }

  lemma EndVariableKeeps(p: Reader, simple: bool)
    ensures EndVariable(p, simple).heap.tables == p.heap.tables
  {
    hide AddVar;
    if p.btps.Push? && p.atts.Push? {
      var q := p.(btps := p.btps.rest, atts := p.atts.rest);
      match CurrentParent(q) {
        case None =>
        case Some(parent) =>
          if ValidParent(q.heap, parent) {
            AddVarKeeps(q.heap, parent, p.btps.top);
            if parent.InVar? && q.heap.vars[parent.v].ArrayObj? {
              var proto := InVar(q.heap.vars[parent.v].proto);
              if ValidParent(q.heap, proto) { AddVarKeeps(q.heap, proto, p.btps.top); }
            }
          }
      }
    }
  }

  lemma EndAbove(p: Reader, uri: string, name: string, lo: Id)
    requires Above(p.heap.tables, lo)
    ensures Above(End(p, uri, name).heap.tables, lo)
  {
    hide Above, EndValue, EndVariable;
    if !p.stopped && p.s.Push? {
      match p.s.top
      case InsideAttributeValue => ValueAbove(PopState(ErrUnless(p, name == "Value")), lo);
      case InsideSimpleType => EndVariableKeeps(p, true);
      case InsideConstructor => EndVariableKeeps(p, false);
      case _ =>
    }
  }

  /** Reading anything keeps it so. */
  lemma {:induction false} RunAbove(p: Reader, n: Node, lo: Id)
    requires Above(p.heap.tables, lo)
    ensures Above(RunNode(p, n).heap.tables, lo)
    decreases n, 1
  {
    hide Above, Start, End;
    match n
    case Text(_) =>
    case Elem(u, l, xa, kids) =>
      StartAbove(p, u, l, xa, lo);
      RunAllAbove(Start(p, u, l, xa), kids, lo);
      EndAbove(RunNodes(Start(p, u, l, xa), kids), u, l, lo);
  }

  lemma {:induction false} RunAllAbove(p: Reader, ns: seq<Node>, lo: Id)
    requires Above(p.heap.tables, lo)
    ensures Above(RunNodes(p, ns).heap.tables, lo)
    decreases ns, 0
  {
    hide Above;
    if ns != [] {
      RunAbove(p, ns[0], lo);
      RunAllAbove(RunNode(p, ns[0]), ns[1..], lo);
    }
  }

  /** Tables made after this moment never lead back behind it. */
  lemma MadeSince(p: Reader, ns: seq<Node>)
    ensures Above(RunNodes(p, ns).heap.tables, |p.heap.tables|)
  {
    RunAllAbove(p, ns, |p.heap.tables|);
  }
}
