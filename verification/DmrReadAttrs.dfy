/** Reading printed attributes. */
module DmrReadAttrs {
  import opened Wrappers
  import opened Text
  import opened DmrTree
  import opened XmlStream
  import opened DmrPrinter
  import opened D4Heap
  import opened D4Parser
  import opened DmrRep

  /** A name that get() neither takes apart nor refuses. */
  predicate Plain(name: string) { name != "" && Free(name, '.') }

  /** The first container of this name. */
  function FirstContainer(attrs: seq<Attr>, name: string): (r: Option<nat>)
    ensures r.Some? ==> r.value < |attrs| && attrs[r.value].Container?
  {
    if attrs == [] then None
    else if attrs[0].name == name && attrs[0].Container? then Some(0)
    else match FirstContainer(attrs[1..], name) case None => None case Some(i) => Some(i + 1)
  }

  /** D4Attributes::get finds something under this dotted name. */
  predicate Finds(attrs: seq<Attr>, fqn: string)
    decreases |fqn|
  {
    var pos := Find(fqn, '.');
    var part := fqn[..pos];
    var rest := if pos < |fqn| then fqn[pos + 1..] else "";
    if part == "" then false
    else if rest != "" then
      var i := FirstContainer(attrs, part);
      i.Some? && Finds(attrs[i.value].attrs, rest)
    else exists i :: 0 <= i < |attrs| && attrs[i].name == part
  }

  /** Attributes that survive: values in every leaf, a type that reads back, and a name under
      which get() finds nothing earlier in the table, and the leaf itself if it has several
      values. */
  predicate WfAttr(a: Attr)
    decreases a, 0
  {
    match a
    case Leaf(n, t, vs) =>
      vs != [] && t !in {EnumA, OpaqueA, ContainerA, OtherXmlA} && (|vs| == 1 || Plain(n))
    case Container(_, attrs) => WfAttrs(attrs)
  }

  predicate WfAttrs(attrs: seq<Attr>)
    decreases attrs, 1
  {
    && (forall i :: 0 <= i < |attrs| ==> WfAttr(attrs[i]))
    && (forall j :: 0 <= j < |attrs| && attrs[j].Leaf? ==> !Finds(attrs[..j], attrs[j].name))
  }

  /** Between two elements: nothing pending and no text collected. */
  predicate Ready(p: Reader) {
    !p.stopped && p.s.Push? && p.charData == "" && p.enumDef.None? && p.dimDef.None?
  }

  /** q is p except for the heap and the two fields left over from the last attribute. */
  predicate SameBut(p: Reader, q: Reader) {
    q == p.(heap := q.heap, attrName := q.attrName, attrType := q.attrType)
  }

  /** A state in which an Attribute element may start. */
  predicate AttrHost(p: Reader) {
    Ready(p) && p.atts.Push? && p.atts.top < |p.heap.tables|
    && p.s.top in {InsideDataset, InsideGroup, InsideAttributeContainer, InsideSimpleType, InsideConstructor}
  }

  // ---------------------------------------------------------------- tags

  lemma AttributeTag()
    ensures "Attribute" != "Dimension" && "Attribute" != "Enumeration" && "Attribute" != "Group"
    ensures GetType("Attribute") == NullT
  {
    assert "Attribute"[0] == 'A' && "Dimension"[0] == 'D';
  }

  lemma StartAttribute(p: Reader, xa: XmlAttrs)
    requires AttrHost(p) && "name" in xa && "type" in xa
    ensures Start(p, DAP4_NS, "Attribute", xa) == ProcessAttribute(p, "Attribute", xa).0
  {
    AttributeTag();
  }

  lemma AttrTypeNames(t: AttrType)
    ensures AttrTypeName(t) == "Container" <==> t == ContainerA
    ensures AttrTypeName(t) == "OtherXML" <==> t == OtherXmlA
  {
    AttrTypeReads(t);
    AttrTypeReads(ContainerA);
    AttrTypeReads(OtherXmlA);
    assert "Opaque"[0] == 'O' && "OtherXML"[1] == 't';
    assert "Enum"[0] == 'E';
  }

  // ---------------------------------------------------------------- values

  lemma IndexOfAttrFirst(os: seq<AttrObj>, name: string, k: nat)
    requires k <= |os| && (k < |os| ==> os[k].name == name)
    requires forall i :: 0 <= i < k ==> os[i].name != name
    ensures IndexOfAttr(os, name, false) == if k < |os| then Some(k) else None
  {
    if os != [] && k > 0 { IndexOfAttrFirst(os[1..], name, k - 1); }
  }

  lemma GetSimple(ts: seq<seq<AttrObj>>, t: Id, name: string)
    requires t < |ts| && name != "" && Free(name, '.')
    ensures GetAttr(ts, t, name) ==
            match IndexOfAttr(ts[t], name, false) case None => None case Some(i) => Some((t, i))
  {
    FindFree(name, '.');
    assert name[..|name|] == name;
  }

  lemma ReadValue(p: Reader, v: string)
    requires Ready(p) && p.s.top == InsideAttribute && p.atts.Push? && p.atts.top < |p.heap.tables|
    ensures RunNode(p, Dap("Value", map[], [XmlStream.Text(v)])) == EndValue(p.(charData := v))
  {
    assert "Value"[0] != "Attribute"[0];
    var p1 := Enter(p, InsideAttributeValue);
    assert Start(p, DAP4_NS, "Value", map[]) == p1;
    assert RunNodes(p1, [XmlStream.Text(v)]) == RunNodes(Chars(p1, v), []);
    assert p.charData + v == v;
  }

  /** The last attribute of the table bears the current name, and no other does. */
  predicate OpenAttr(p: Reader, done: seq<string>)
    ensures OpenAttr(p, done) ==> Settable(p)
  {
    && Ready(p) && p.s.top == InsideAttribute && p.atts.Push? && p.atts.top < |p.heap.tables|
    && Plain(p.attrName)
    && var os := p.heap.tables[p.atts.top];
    && os != [] && os[|os| - 1] == AttrObj(p.attrName, AttrTypeOf(p.attrType), done, None)
    && forall i :: 0 <= i < |os| - 1 ==> os[i].name != p.attrName
  }

  predicate Settable(p: Reader) {
    p.atts.Push? && p.atts.top < |p.heap.tables| && p.heap.tables[p.atts.top] != []
  }

  /** The heap once the last attribute has these values. */
  function ValuesSet(p: Reader, vs: seq<string>): (r: Reader)
    requires Settable(p)
    ensures Settable(r)
  {
    var os := p.heap.tables[p.atts.top];
    p.(heap := WithTable(p.heap, p.atts.top, os[|os| - 1 := os[|os| - 1].(values := vs)]))
  }

  lemma ReadOneMore(p: Reader, v: string, done: seq<string>)
    requires OpenAttr(p, done)
    ensures RunNode(p, Dap("Value", map[], [XmlStream.Text(v)])) == ValuesSet(p, done + [v])
    ensures OpenAttr(ValuesSet(p, done + [v]), done + [v])
  {
    hide RunNode;
    var t := p.atts.top;
    var os := p.heap.tables[t];
    ReadValue(p, v);
    IndexOfAttrFirst(os, p.attrName, |os| - 1);
    GetSimple(p.heap.tables, t, p.attrName);
  }

  lemma SetTwice(p: Reader, a: seq<string>, b: seq<string>)
    requires Settable(p)
    ensures ValuesSet(ValuesSet(p, a), b) == ValuesSet(p, b)
  {
    var t := p.atts.top;
    var os := p.heap.tables[t];
    var k := |os| - 1;
    assert os[k := os[k].(values := a)][k := os[k].(values := b)] == os[k := os[k].(values := b)];
    var x := os[k := os[k].(values := b)];
    assert ValuesSet(p, a).heap.tables[t := x] == p.heap.tables[t := x];
  }

  lemma NoMoreValues(p: Reader, done: seq<string>)
    requires OpenAttr(p, done)
    ensures RunNodes(p, PrintValues([])) == ValuesSet(p, done)
  {
    var os := p.heap.tables[p.atts.top];
    assert os[|os| - 1 := os[|os| - 1]] == os && p.heap.tables[p.atts.top := os] == p.heap.tables;
  }

  lemma RunNoValues(p: Reader)
    ensures RunNodes(p, PrintValues([])) == p
  {
  }

  lemma RunFirstValue(p: Reader, vs: seq<string>)
    requires vs != []
    ensures RunNodes(p, PrintValues(vs))
      == RunNodes(RunNode(p, Dap("Value", map[], [XmlStream.Text(vs[0])])), PrintValues(vs[1..]))
  {
    hide RunNode;
    RunOne(p, Dap("Value", map[], [XmlStream.Text(vs[0])]), PrintValues(vs[1..]));
  }

  /** The remaining values of the attribute at the end of the table. */
  lemma {:induction false} ReadValues(p: Reader, vs: seq<string>, done: seq<string>)
    requires OpenAttr(p, done)
    ensures RunNodes(p, PrintValues(vs)) == ValuesSet(p, done + vs)
    decreases |vs|
  {
    hide *;
    if vs == [] {
      assert done + vs == done;
      NoMoreValues(p, done);
    } else {
      RunFirstValue(p, vs);
      ReadOneMore(p, vs[0], done);
      SetTwice(p, done + [vs[0]], done + vs);
      assert done + [vs[0]] + vs[1..] == done + vs;
      ReadValues(ValuesSet(p, done + [vs[0]]), vs[1..], done + [vs[0]]);
    }
  }

  lemma ReadLeaf(p: Reader, a: Attr)
    requires AttrHost(p) && a.Leaf? && WfAttr(a)
    requires GetAttr(p.heap.tables, p.atts.top, a.name) == None
    ensures var q := RunNode(p, PrintAttr(a)); var t := p.atts.top;
      SameBut(p, q)
      && q.heap == WithTable(p.heap, t, p.heap.tables[t] + [AttrObj(a.name, a.typ, a.values, None)])
  {
    var xa := map["name" := a.name, "type" := AttrTypeName(a.typ)];
    var t := p.atts.top;
    var os := p.heap.tables[t];
    StartAttribute(p, xa);
    AttrTypeNames(a.typ);
    AttrTypeReads(a.typ);
    var p1 := Enter(p, InsideAttribute).(attrName := a.name, attrType := AttrTypeName(a.typ));
    var p3 := Appended(p1, AttrObj(a.name, a.typ, a.values, None));
    ReadLeafValues(p1, a.typ, a.values);
    assert RunNodes(p1, PrintValues(a.values)) == p3;
    assert "Attribute" == "Attribute" && End(p3, DAP4_NS, "Attribute") == p3.(s := p.s);
  }

  /** A new attribute at the end of the table. */
  function Appended(p: Reader, o: AttrObj): Reader
    requires p.atts.Push? && p.atts.top < |p.heap.tables|
  {
    p.(heap := WithTable(p.heap, p.atts.top, p.heap.tables[p.atts.top] + [o]))
  }

  lemma ReadFirst(p: Reader, v: string)
    requires Ready(p) && p.s.top == InsideAttribute && p.atts.Push? && p.atts.top < |p.heap.tables|
    requires GetAttr(p.heap.tables, p.atts.top, p.attrName) == None
    ensures var p1 := Appended(p, AttrObj(p.attrName, AttrTypeOf(p.attrType), [v], None));
      RunNode(p, Dap("Value", map[], [XmlStream.Text(v)])) == p1 && (Plain(p.attrName) ==> OpenAttr(p1, [v]))
  {
    hide RunNode, GetAttr;
    ReadValue(p, v);
    if Plain(p.attrName) {
      GetSimple(p.heap.tables, p.atts.top, p.attrName);
      NotIndexed(p.heap.tables[p.atts.top], p.attrName);
    }
  }

  lemma SetAppended(p: Reader, o: AttrObj, vs: seq<string>)
    requires p.atts.Push? && p.atts.top < |p.heap.tables|
    ensures ValuesSet(Appended(p, o), vs) == Appended(p, o.(values := vs))
  {
    var t := p.atts.top;
    var os := p.heap.tables[t];
    assert (os + [o])[|os| := o.(values := vs)] == os + [o.(values := vs)];
    var x := os + [o.(values := vs)];
    assert Appended(p, o).heap.tables[t := x] == p.heap.tables[t := x];
  }

  /** All values of an attribute whose name is still free. */
  lemma ReadLeafValues(p: Reader, typ: AttrType, vs: seq<string>)
    requires Ready(p) && p.s.top == InsideAttribute && p.atts.Push? && p.atts.top < |p.heap.tables|
    requires AttrTypeOf(p.attrType) == typ && vs != [] && (|vs| == 1 || Plain(p.attrName))
    requires GetAttr(p.heap.tables, p.atts.top, p.attrName) == None
    ensures RunNodes(p, PrintValues(vs)) == Appended(p, AttrObj(p.attrName, typ, vs, None))
  {
    hide *;
    var o := AttrObj(p.attrName, typ, [vs[0]], None);
    RunFirstValue(p, vs);
    ReadFirst(p, vs[0]);
    if |vs| == 1 {
      assert vs == [vs[0]] && vs[1..] == [];
      RunNoValues(Appended(p, o));
    } else {
      assert [vs[0]] + vs[1..] == vs;
      ReadValues(Appended(p, o), vs[1..], [vs[0]]);
      SetAppended(p, o, vs);
    }
  }

  lemma {:induction false} NotIndexed(os: seq<AttrObj>, name: string)
    requires IndexOfAttr(os, name, false) == None
    ensures forall i :: 0 <= i < |os| ==> os[i].name != name
    decreases |os|
  {
    if os != [] {
      NotIndexed(os[1..], name);
      forall i | 0 <= i < |os| ensures os[i].name != name {
        if i > 0 { assert os[i] == os[1..][i - 1]; }
      }
    }
  }

  // ---------------------------------------------------------------- tables

  /** What reading attributes does to the heap: the current table represents more, later
      tables are added, and nothing else changes. */
  predicate TableExtended(a: Heap, b: Heap, t: Id, attrs: seq<Attr>) {
    && a.vars == b.vars && a.groups == b.groups
    && t < |a.tables| <= |b.tables|
    && (forall u :: 0 <= u < |a.tables| && u != t ==> b.tables[u] == a.tables[u])
    && AttrsRep(b.tables, b.tables[t], attrs, t + 1)
  }

  lemma AttrsRepSnoc(ts: seq<seq<AttrObj>>, os: seq<AttrObj>, attrs: seq<Attr>, lo: Id, o: AttrObj, a: Attr)
    requires AttrsRep(ts, os, attrs, lo) && AttrRep(ts, o, a, lo)
    ensures AttrsRep(ts, os + [o], attrs + [a], lo)
  {
    forall i | 0 <= i < |attrs| + 1 ensures AttrRep(ts, (os + [o])[i], (attrs + [a])[i], lo) {
      if i < |attrs| { assert AttrRep(ts, os[i], attrs[i], lo); }
    }
  }

  /** A container as Start leaves it, with its own empty table. */
  predicate ContainerOpen(p: Reader, p1: Reader, name: string) {
    && AttrHost(p) && AttrHost(p1) && p1.atts.top == |p.heap.tables|
    && p1 == Enter(p, InsideAttributeContainer).(heap := p1.heap, atts := Push(|p.heap.tables|, p.atts))
    && var t, o := p.atts.top, AttrObj(name, ContainerA, [], Some(|p.heap.tables|));
    && p1.heap == p.heap.(tables := p.heap.tables[t := p.heap.tables[t] + [o]] + [[]])
    && AttrsRep(p1.heap.tables, p1.heap.tables[p1.atts.top], [], p1.atts.top + 1)
  }

  lemma StartContainer(p: Reader, name: string)
    requires AttrHost(p)
    ensures ContainerOpen(p, Start(p, DAP4_NS, "Attribute", map["name" := name, "type" := "Container"]), name)
  {
    StartAttribute(p, map["name" := name, "type" := "Container"]);
  }

  lemma RunContainer(p: Reader, a: Attr)
    requires a.Container?
    ensures RunNode(p, PrintAttr(a))
      == End(RunNodes(Start(p, DAP4_NS, "Attribute", map["name" := a.name, "type" := "Container"]),
                      PrintAttrs(a.attrs)),
             DAP4_NS, "Attribute")
  {
    hide Start, End;
  }

  lemma EndContainer(p: Reader, p1: Reader, p2: Reader, a: Attr, done: seq<Attr>)
    requires ContainerOpen(p, p1, a.name) && a.Container?
    requires SameBut(p1, p2) && TableExtended(p1.heap, p2.heap, p1.atts.top, a.attrs)
    requires AttrsRep(p.heap.tables, p.heap.tables[p.atts.top], done, p.atts.top + 1)
    ensures var q := End(p2, DAP4_NS, "Attribute");
      SameBut(p, q) && TableExtended(p.heap, q.heap, p.atts.top, done + [a])
  {
    ContainerRead(p.heap, p1.heap, p2.heap, p.atts.top, done, a);
    hide TableExtended, AttrsRep;
    assert End(p2, DAP4_NS, "Attribute") == p2.(s := p.s, atts := p.atts);
  }

  lemma {:induction false} ReadContainer(p: Reader, a: Attr, done: seq<Attr>)
    requires AttrHost(p) && a.Container? && WfAttr(a)
    requires AttrsRep(p.heap.tables, p.heap.tables[p.atts.top], done, p.atts.top + 1)
    ensures var q := RunNode(p, PrintAttr(a));
      SameBut(p, q) && TableExtended(p.heap, q.heap, p.atts.top, done + [a])
    decreases a, 1
  {
    assert WfAttrs(a.attrs) && [] + a.attrs == a.attrs;
    RunContainer(p, a);
    StartContainer(p, a.name);
    var p1 := Start(p, DAP4_NS, "Attribute", map["name" := a.name, "type" := "Container"]);
    assert AttrHost(p1) && AttrsRep(p1.heap.tables, p1.heap.tables[p1.atts.top], [], p1.atts.top + 1);
    hide *;
    ReadAttrs(p1, a.attrs, []);
    EndContainer(p, p1, RunNodes(p1, PrintAttrs(a.attrs)), a, done);
  }

  lemma ContainerRead(h: Heap, h1: Heap, h2: Heap, t: Id, done: seq<Attr>, a: Attr)
    requires t < |h.tables| && AttrsRep(h.tables, h.tables[t], done, t + 1) && a.Container?
    requires var o := AttrObj(a.name, ContainerA, [], Some(|h.tables|));
      h1 == h.(tables := h.tables[t := h.tables[t] + [o]] + [[]])
    requires TableExtended(h1, h2, |h.tables|, a.attrs)
    ensures TableExtended(h, h2, t, done + [a])
  {
    var c := |h.tables|;
    var o := AttrObj(a.name, ContainerA, [], Some(c));
    assert TableRep(h2.tables, c, a.attrs, t + 1);
    assert AttrRep(h2.tables, o, a, t + 1);
    AttrsStable(h.tables, h2.tables, h.tables[t], done, t + 1);
    AttrsRepSnoc(h2.tables, h.tables[t], done, t + 1, o, a);
  }

  lemma {:induction false} ContainerMirrors(ts: seq<seq<AttrObj>>, os: seq<AttrObj>, attrs: seq<Attr>,
                                            name: string, lo: Id)
    requires AttrsRep(ts, os, attrs, lo) && forall i :: 0 <= i < |attrs| ==> WfAttr(attrs[i])
    ensures IndexOfAttr(os, name, true) == FirstContainer(attrs, name)
    decreases |os|
  {
    if os != [] {
      assert AttrRep(ts, os[0], attrs[0], lo) && WfAttr(attrs[0]);
      forall i | 0 <= i < |os| - 1 ensures AttrRep(ts, os[1..][i], attrs[1..][i], lo) && WfAttr(attrs[1..][i]) {
        assert AttrRep(ts, os[i + 1], attrs[i + 1], lo);
      }
      ContainerMirrors(ts, os[1..], attrs[1..], name, lo);
    }
  }

  /** get() finds in a table what it would find in the attributes that the table stands for. */
  lemma {:induction false} GetMirrors(ts: seq<seq<AttrObj>>, t: Id, attrs: seq<Attr>, fqn: string)
    requires t < |ts| && AttrsRep(ts, ts[t], attrs, t + 1) && WfAttrs(attrs)
    ensures GetAttr(ts, t, fqn).Some? <==> Finds(attrs, fqn)
    decreases |fqn|
  {
    var pos := Find(fqn, '.');
    var part := fqn[..pos];
    var rest := if pos < |fqn| then fqn[pos + 1..] else "";
    if part != "" && rest != "" {
      ContainerMirrors(ts, ts[t], attrs, part, t + 1);
      var i := FirstContainer(attrs, part);
      if i.Some? {
        var o, c := ts[t][i.value], attrs[i.value];
        assert AttrRep(ts, o, c, t + 1) && WfAttr(c);
        assert TableRep(ts, o.child.value, c.attrs, t + 1);
        GetMirrors(ts, o.child.value, c.attrs, rest);
      }
    } else if part != "" {
      if IndexOfAttr(ts[t], part, false).None? { NotIndexed(ts[t], part); }
      IndexNamed(ts[t], part);
      forall i | 0 <= i < |attrs| ensures attrs[i].name == ts[t][i].name {
        assert AttrRep(ts, ts[t][i], attrs[i], t + 1);
      }
    }
  }

  lemma {:induction false} IndexNamed(os: seq<AttrObj>, name: string)
    ensures var r := IndexOfAttr(os, name, false); r.Some? ==> os[r.value].name == name
    decreases |os|
  {
    if os != [] { IndexNamed(os[1..], name); }
  }

  lemma {:induction false} ReadAttr(p: Reader, a: Attr, done: seq<Attr>)
    requires AttrHost(p) && WfAttrs(done + [a])
    requires AttrsRep(p.heap.tables, p.heap.tables[p.atts.top], done, p.atts.top + 1)
    ensures var q := RunNode(p, PrintAttr(a));
      SameBut(p, q) && TableExtended(p.heap, q.heap, p.atts.top, done + [a])
    decreases a, 2
  {
    var t := p.atts.top;
    var all := done + [a];
    assert all[|done|] == a && WfAttr(a);
    if a.Leaf? {
      WfAttrsPrefix(done, [a]);
      assert all[..|done|] == done;
      GetMirrors(p.heap.tables, t, done, a.name);
      ReadLeaf(p, a);
      LeafAdded(p.heap, t, done, a);
    } else {
      ReadContainer(p, a, done);
    }
  }

  lemma LeafAdded(h: Heap, t: Id, done: seq<Attr>, a: Attr)
    requires t < |h.tables| && AttrsRep(h.tables, h.tables[t], done, t + 1) && a.Leaf?
    ensures TableExtended(h, WithTable(h, t, h.tables[t] + [AttrObj(a.name, a.typ, a.values, None)]), t, done + [a])
  {
    var o := AttrObj(a.name, a.typ, a.values, None);
    var h1 := WithTable(h, t, h.tables[t] + [o]);
    AttrsStable(h.tables, h1.tables, h.tables[t], done, t + 1);
    AttrsRepSnoc(h1.tables, h.tables[t], done, t + 1, o, a);
  }

  lemma WfAttrsPrefix(a: seq<Attr>, b: seq<Attr>)
    requires WfAttrs(a + b)
    ensures WfAttrs(a)
  {
    forall i | 0 <= i < |a| ensures (a + b)[i] == a[i] && (a + b)[..i] == a[..i] {
    }
  }

  lemma ExtendedTwice(a: Heap, b: Heap, c: Heap, t: Id, some: seq<Attr>, all: seq<Attr>)
    requires TableExtended(a, b, t, some) && TableExtended(b, c, t, all)
    ensures TableExtended(a, c, t, all)
  {
  }

  /** Reading the printed form of a list of attributes adds exactly them to the current
      table. */
  lemma {:induction false} ReadAttrs(p: Reader, attrs: seq<Attr>, done: seq<Attr>)
    requires AttrHost(p) && WfAttrs(done + attrs)
    requires AttrsRep(p.heap.tables, p.heap.tables[p.atts.top], done, p.atts.top + 1)
    ensures var q := RunNodes(p, PrintAttrs(attrs));
      SameBut(p, q) && TableExtended(p.heap, q.heap, p.atts.top, done + attrs)
    decreases attrs, 0
  {
    if attrs == [] {
      assert done + attrs == done;
    } else {
      var n := PrintAttr(attrs[0]);
      assert done + [attrs[0]] + attrs[1..] == done + attrs;
      WfAttrsPrefix(done + [attrs[0]], attrs[1..]);
      ReadAttr(p, attrs[0], done);
      RunOne(p, n, PrintAttrs(attrs[1..]));
      ReadAttrsRest(p, RunNode(p, n), attrs, done);
    }
  }

  lemma {:induction false} ReadAttrsRest(p: Reader, q: Reader, attrs: seq<Attr>, done: seq<Attr>)
    requires AttrHost(p) && attrs != [] && WfAttrs(done + attrs)
    requires SameBut(p, q) && TableExtended(p.heap, q.heap, p.atts.top, done + [attrs[0]])
    ensures var r := RunNodes(q, PrintAttrs(attrs[1..]));
      SameBut(p, r) && TableExtended(p.heap, r.heap, p.atts.top, done + attrs)
    decreases attrs[1..], 1
  {
    assert done + [attrs[0]] + attrs[1..] == done + attrs;
    ReadAttrs(q, attrs[1..], done + [attrs[0]]);
    ExtendedTwice(p.heap, q.heap, RunNodes(q, PrintAttrs(attrs[1..])).heap, p.atts.top,
                  done + [attrs[0]], done + attrs);
  }
}
