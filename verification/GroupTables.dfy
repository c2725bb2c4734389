/** The attribute tables that groups leave behind when they are flattened to DAP2. */
module GroupTables {
  import opened Wrappers
  import opened Text
  import opened DmrTree
  import opened SpaceEncoding
  import opened AttrTranslation

  const DROPPED: string := "dap4:dropped_members"

  function TypeOfVar(v: Var): string {
    match v
    case Simple(t, _, _, _, _) => TypeName(t)
    case Ctor(s, _, _, _, _) => if s then "Sequence" else "Structure"
  }

  /** What is said about a dropped variable: its extents, if it is an array, and its type. */
  function MemberTable(v: Var, size: Dim -> int): seq<Entry> {
    (if v.dims == [] then []
     else
       var extents := seq(|v.dims|, i requires 0 <= i < |v.dims| => ShowInt(size(v.dims[i])));
       [Values("array_dimensions", UInt32T2, extents)])
    + [Values("dap4:type", StringT2, [TypeOfVar(v)])]
  }

  /** The members from position k on that do not convert. */
  function DroppedVars(vs: seq<Var>, k: nat, keeps: Var -> bool): seq<Var>
    decreases |vs| - k
  {
    if k >= |vs| then [] else (if keeps(vs[k]) then [] else [vs[k]]) + DroppedVars(vs, k + 1, keeps)
  }

  /** Constructor::make_dropped_vars_attr_table: a container for each dropped variable. */
  function DroppedTable(es: seq<Entry>, ds: seq<Var>, size: Dim -> int): Option<seq<Entry>>
    decreases |ds|
  {
    if ds == [] then Some(es)
    else match AppendContainer(es, Removed(ds[0].name), MemberTable(ds[0], size))
      case None => None
      case Some(es1) => DroppedTable(es1, ds[1..], size)
  }

  function WithDropped(es: seq<Entry>, ds: seq<Var>, size: Dim -> int): Option<seq<Entry>> {
    if ds == [] then Some(es)
    else match DroppedTable([], ds, size) case None => None case Some(d) => AppendContainer(es, DROPPED, d)
  }

  /** The root copies its own attributes, from position k on, into the table it is given. */
  function Merged(es: seq<Entry>, own: seq<Entry>, k: nat): Option<seq<Entry>>
    decreases |own| - k
  {
    if k >= |own| then Some(es)
    else
      var r := match own[k]
        case Values(n, t, vs) => AppendAttrs(es, n, t, vs)
        case Table(n, sub) => AppendContainer(es, n, sub);
      match r case None => None case Some(es1) => Merged(es1, own, k + 1)
  }

  /** What transform_to_dap2 of a group does to the table of the group above; None is the
      exception. */
  function AddGroup(above: seq<Entry>, g: Group, keeps: Var -> bool, size: Dim -> int): Option<seq<Entry>>
    decreases g, |g.groups| + 2
  {
    match ToDap2([], g.attrs)
    case None => None
    case Some(own) =>
      if g.name == "/" then
        match Merged(above, own, 0) case None => None case Some(es) => Filled(es, g, keeps, size)
      else
        match Filled(own, g, keeps, size)
        case None => None
        case Some(es) => AppendContainer(above, Removed(g.name), es)
  }

  /** A group's own table, once its attributes are in it, gets its dropped members and its child
      groups. */
  function Filled(es: seq<Entry>, g: Group, keeps: Var -> bool, size: Dim -> int): Option<seq<Entry>>
    decreases g, |g.groups| + 1
  {
    match WithDropped(es, DroppedVars(g.vars, 0, keeps), size)
    case None => None
    case Some(es1) => AddGroups(es1, g, 0, keeps, size)
  }

  function AddGroups(es: seq<Entry>, g: Group, k: nat, keeps: Var -> bool, size: Dim -> int): Option<seq<Entry>>
    decreases g, |g.groups| - k
  {
    if k >= |g.groups| then Some(es)
    else match AddGroup(es, g.groups[k], keeps, size)
      case None => None
      case Some(es1) => AddGroups(es1, g, k + 1, keeps, size)
  }

  lemma FilledSteps(es: seq<Entry>, g: Group, keeps: Var -> bool, size: Dim -> int)
    ensures Filled(es, g, keeps, size) ==
      match WithDropped(es, DroppedVars(g.vars, 0, keeps), size)
      case None => None
      case Some(es1) => AddGroups(es1, g, 0, keeps, size)
  {
  }

  // ---------------------------------------------------------------- adding containers

  function Taken(es: seq<Entry>): set<string> { set e | e in es :: e.name }

  predicate Distinct(ns: seq<string>) { forall i, j :: 0 <= i < j < |ns| ==> ns[i] != ns[j] }

  /** Names that can be added to a table, one after the other. */
  predicate CanAdd(taken: set<string>, ns: seq<string>) { Distinct(ns) && forall n :: n in ns ==> n !in taken }

  lemma OneContainer(es: seq<Entry>, name: string, sub: seq<Entry>)
    ensures var n := Removed(name);
      && AppendContainer(es, n, sub) == (if n in Taken(es) then None else Some(es + [Table(n, sub)]))
      && Taken(es + [Table(n, sub)]) == Taken(es) + {n}
  {
    var n := Removed(name);
    RemovalIdempotent(name);
    IndexOfSome(es, n);
    if n in Taken(es) { assert exists e :: e in es && e.name == n; }
    var more := es + [Table(n, sub)];
    forall x | x in Taken(es) + {n} ensures x in Taken(more) {
      if x == n {
        assert more[|es|] in more;
      } else {
        var e :| e in es && e.name == x;
        assert e in more;
      }
    }
  }

  lemma CanAddCons(taken: set<string>, n: string, ns: seq<string>)
    ensures CanAdd(taken, [n] + ns) <==> n !in taken && CanAdd(taken + {n}, ns)
  {
    var all := [n] + ns;
    if CanAdd(taken, all) {
      assert all[0] in all;
      forall i | 0 <= i < |ns| ensures ns[i] !in taken && ns[i] != n {
        assert all[i + 1] == ns[i] && all[i + 1] in all;
      }
      forall i, j | 0 <= i < j < |ns| ensures ns[i] != ns[j] {
        assert all[i + 1] == ns[i] && all[j + 1] == ns[j];
      }
    }
    if n !in taken && CanAdd(taken + {n}, ns) {
      forall i, j | 0 <= i < j < |all| ensures all[i] != all[j] {
        assert all[j] == ns[j - 1] && ns[j - 1] in ns;
        if i > 0 { assert all[i] == ns[i - 1]; }
      }
    }
  }

  // ---------------------------------------------------------------- when it throws

  function DroppedNames(ds: seq<Var>): seq<string> {
    if ds == [] then [] else [Removed(ds[0].name)] + DroppedNames(ds[1..])
  }

  function DroppedEntry(v: Var, size: Dim -> int): Entry { Table(Removed(v.name), MemberTable(v, size)) }

  function DroppedEntries(ds: seq<Var>, size: Dim -> int): seq<Entry> {
    if ds == [] then [] else [DroppedEntry(ds[0], size)] + DroppedEntries(ds[1..], size)
  }

  /** The table of dropped members can be made exactly if their names differ, and then has one
      container for each. */
  lemma {:induction false} DroppedExact(es: seq<Entry>, ds: seq<Var>, size: Dim -> int)
    ensures var r := DroppedTable(es, ds, size);
      && (r.Some? <==> CanAdd(Taken(es), DroppedNames(ds)))
      && (r.Some? ==> r.value == es + DroppedEntries(ds, size))
    decreases |ds|
  {
    hide MemberTable, AppendContainer, Taken;
    if ds == [] {
      assert es + [] == es;
    } else {
      var e := DroppedEntry(ds[0], size);
      OneContainer(es, ds[0].name, MemberTable(ds[0], size));
      CanAddCons(Taken(es), e.name, DroppedNames(ds[1..]));
      hide CanAdd;
      DroppedExact(es + [e], ds[1..], size);
      assert es + [e] + DroppedEntries(ds[1..], size) == es + ([e] + DroppedEntries(ds[1..], size));
    }
  }

  /** No group below this one is called "/". */
  predicate OneRoot(g: Group)
    decreases g
  {
    forall i :: 0 <= i < |g.groups| ==> g.groups[i].name != "/" && OneRoot(g.groups[i])
  }

  function KidNames(gs: seq<Group>, k: nat): seq<string>
    decreases |gs| - k
  {
    if k >= |gs| then [] else [Removed(gs[k].name)] + KidNames(gs, k + 1)
  }

  function HeadNames(hs: seq<Head>): set<string> { set h | h in hs :: h.name }

  predicate HeadsDiffer(hs: seq<Head>) { forall i, j :: 0 <= i < j < |hs| ==> hs[i].name != hs[j].name }

  /** A table's names are those of its heads. */
  lemma HeadsDifferAlike(es: seq<Entry>)
    ensures NamesDiffer(es) <==> HeadsDiffer(Heads(es))
  {
    assert forall i :: 0 <= i < |es| ==> Heads(es)[i].name == es[i].name;
  }

  lemma TakenHeads(es: seq<Entry>)
    ensures Taken(es) == HeadNames(Heads(es)) && (NamesDiffer(es) <==> HeadsDiffer(Heads(es)))
  {
    var hs := Heads(es);
    HeadsDifferAlike(es);
    hide NamesDiffer, HeadsDiffer;
    forall i | 0 <= i < |es| ensures hs[i].name == es[i].name && hs[i] in hs && es[i] in es {
    }
    forall n | n in Taken(es) ensures n in HeadNames(hs) {
      var e :| e in es && e.name == n;
      var i :| 0 <= i < |es| && es[i] == e;
      assert hs[i] in hs;
    }
    forall n | n in HeadNames(hs) ensures n in Taken(es) {
      var h :| h in hs && h.name == n;
      var i :| 0 <= i < |hs| && hs[i] == h;
      assert es[i] in es;
    }
  }

  /** Nothing is added under a name that is taken: dropped members differ from each other, the
      container for them is not called like an attribute, and child groups are called neither
      like an attribute, nor like that container if there is one, nor like each other; and so
      on for the child groups, whose attributes must go into an empty table. */
  predicate Clear(taken: set<string>, g: Group, keeps: Var -> bool)
    decreases g, 1
  {
    var dropped := DroppedNames(DroppedVars(g.vars, 0, keeps));
    && Distinct(dropped)
    && (dropped != [] ==> DROPPED !in taken)
    && CanAdd(if dropped == [] then taken else taken + {DROPPED}, KidNames(g.groups, 0))
    && forall i :: 0 <= i < |g.groups| ==> ClearKid(g.groups[i], keeps)
  }

  predicate ClearKid(g: Group, keeps: Var -> bool)
    decreases g, 2
  {
    Takes([], g.attrs) && Clear(HeadNames(AllHeads([], g.attrs)), g, keeps)
  }

  // ---------------------------------------------------------------- what is added

  function OwnEntries(g: Group): seq<Entry> {
    match ToDap2([], g.attrs) case None => [] case Some(own) => own
  }

  /** The containers that a group adds to its table: one for its dropped members, if there are
      any, and one for each child group. */
  function GroupEntries(g: Group, keeps: Var -> bool, size: Dim -> int): seq<Entry>
    decreases g, |g.groups| + 1
  {
    DroppedContainers(DroppedVars(g.vars, 0, keeps), size)
    + KidEntries(g, 0, keeps, size)
  }

  function DroppedContainers(ds: seq<Var>, size: Dim -> int): seq<Entry> {
    if ds == [] then [] else [Table(DROPPED, DroppedEntries(ds, size))]
  }

  function KidEntries(g: Group, k: nat, keeps: Var -> bool, size: Dim -> int): seq<Entry>
    decreases g, |g.groups| - k
  {
    if k >= |g.groups| then []
    else [Table(Removed(g.groups[k].name), OwnEntries(g.groups[k]) + GroupEntries(g.groups[k], keeps, size))]
         + KidEntries(g, k + 1, keeps, size)
  }

  lemma DroppedContainer(es: seq<Entry>, d: seq<Entry>)
    ensures AppendContainer(es, DROPPED, d) == if DROPPED in Taken(es) then None else Some(es + [Table(DROPPED, d)])
    ensures Taken(es + [Table(DROPPED, d)]) == Taken(es) + {DROPPED}
  {
    assert NoCode(DROPPED);
    RemovedNothing(DROPPED);
    OneContainer(es, DROPPED, d);
  }

  lemma WithDroppedExact(es: seq<Entry>, ds: seq<Var>, size: Dim -> int)
    ensures var r := WithDropped(es, ds, size);
      && (r.Some? <==> Distinct(DroppedNames(ds)) && (ds != [] ==> DROPPED !in Taken(es)))
      && (r.Some? ==>
            && r.value == es + DroppedContainers(ds, size)
            && Taken(r.value) == if ds == [] then Taken(es) else Taken(es) + {DROPPED})
  {
    DroppedExact([], ds, size);
    assert Taken([]) == {};
    assert [] + DroppedEntries(ds, size) == DroppedEntries(ds, size) && es + [] == es;
    DroppedContainer(es, DroppedEntries(ds, size));
  }

  lemma {:induction false} FilledExact(es: seq<Entry>, g: Group, keeps: Var -> bool, size: Dim -> int)
    requires OneRoot(g)
    ensures var r := Filled(es, g, keeps, size);
      && (r.Some? <==> Clear(Taken(es), g, keeps))
      && (r.Some? ==> r.value == es + GroupEntries(g, keeps, size))
    decreases g, |g.groups| + 1
  {
    hide AddGroups, KidEntries, ClearKid, WithDropped, Taken, KidNames, CanAdd, DroppedContainers;
    var ds := DroppedVars(g.vars, 0, keeps);
    WithDroppedExact(es, ds, size);
    assert ds == [] <==> DroppedNames(ds) == [];
    hide DroppedNames;
    var r := WithDropped(es, ds, size);
    if r.Some? {
      AddGroupsExact(r.value, g, 0, keeps, size);
      var own := r.value[|es|..];
      assert r.value == es + own;
      assert es + own + KidEntries(g, 0, keeps, size) == es + (own + KidEntries(g, 0, keeps, size));
    }
  }

  lemma {:induction false} AddGroupsExact(es: seq<Entry>, g: Group, k: nat, keeps: Var -> bool, size: Dim -> int)
    requires OneRoot(g)
    ensures var r := AddGroups(es, g, k, keeps, size);
      && (r.Some? <==>
           && CanAdd(Taken(es), KidNames(g.groups, k))
           && forall i :: k <= i < |g.groups| ==> ClearKid(g.groups[i], keeps))
      && (r.Some? ==> r.value == es + KidEntries(g, k, keeps, size))
    decreases g, |g.groups| - k
  {
    hide ClearKid, AddGroup, Taken, GroupEntries, OwnEntries;
    if k >= |g.groups| {
      assert es + [] == es;
    } else {
      var c := g.groups[k];
      var e := Table(Removed(c.name), OwnEntries(c) + GroupEntries(c, keeps, size));
      AddGroupExact(es, c, keeps, size);
      CanAddCons(Taken(es), e.name, KidNames(g.groups, k + 1));
      hide CanAdd;
      if AddGroup(es, c, keeps, size).Some? {
        OneContainer(es, c.name, e.entries);
        AddGroupsExact(es + [e], g, k + 1, keeps, size);
        assert es + [e] + KidEntries(g, k + 1, keeps, size) == es + ([e] + KidEntries(g, k + 1, keeps, size));
      }
    }
  }

  lemma {:induction false} AddGroupExact(above: seq<Entry>, g: Group, keeps: Var -> bool, size: Dim -> int)
    requires OneRoot(g) && g.name != "/"
    ensures var r := AddGroup(above, g, keeps, size);
      && (r.Some? <==> ClearKid(g, keeps) && Removed(g.name) !in Taken(above))
      && (r.Some? ==> r.value == above + [Table(Removed(g.name), OwnEntries(g) + GroupEntries(g, keeps, size))])
    decreases g, |g.groups| + 2
  {
    assert Heads([]) == [];
    hide Filled, Clear, GroupEntries, AppendContainer, Taken, Takes, AllHeads, Heads, HeadNames;
    var own := ToDap2([], g.attrs);
    TakesExact([], g.attrs);
    if own.Some? {
      TakenHeads(own.value);
      FilledExact(own.value, g, keeps, size);
      var r := Filled(own.value, g, keeps, size);
      if r.Some? { OneContainer(above, g.name, r.value); }
    }
  }

  /** The dropped members of a group are listed, with their extents and types, exactly when they
      do not convert. */
  lemma {:induction false} DroppedListed(vs: seq<Var>, k: nat, keeps: Var -> bool, size: Dim -> int, e: Entry)
    ensures e in DroppedEntries(DroppedVars(vs, k, keeps), size)
      <==> exists i :: k <= i < |vs| && !keeps(vs[i]) && Lists(e, vs[i], size)
    decreases |vs| - k
  {
    DroppedOne(vs, k, keeps, size, e);
    hide *;
    if k < |vs| {
      ListsExact(e, vs[k], size);
      DroppedListed(vs, k + 1, keeps, size, e);
      if e in DroppedEntries(DroppedVars(vs, k + 1, keeps), size) {
        var i :| k + 1 <= i < |vs| && !keeps(vs[i]) && Lists(e, vs[i], size);
      }
    }
  }

  /** The container of a dropped variable bears its decoded name, and lists its extents in
      order, if there are any, and then its type, for an array that of its elements. */
  predicate Lists(e: Entry, v: Var, size: Dim -> int) {
    && e.Table? && e.name == Removed(v.name) && |e.entries| == (if v.dims == [] then 1 else 2)
    && (v.dims != [] ==>
          var d := e.entries[0];
          && d.Values? && d.name == "array_dimensions" && d.typ == UInt32T2 && |d.values| == |v.dims|
          && forall i :: 0 <= i < |v.dims| ==> d.values[i] == ShowInt(size(v.dims[i])))
    && var t := e.entries[|e.entries| - 1];
       && t.Values? && t.name == "dap4:type" && t.typ == StringT2 && |t.values| == 1
       && (v.Simple? ==> t.values[0] == TypeName(v.typ))
       && (v.Ctor? ==> t.values[0] == if v.sequence then "Sequence" else "Structure")
  }

  lemma ListsExact(e: Entry, v: Var, size: Dim -> int)
    ensures Lists(e, v, size) <==> e == DroppedEntry(v, size)
  {
    hide TypeName, ShowInt, Removed;
    var table := MemberTable(v, size);
    if Lists(e, v, size) {
      assert |e.entries| == |table|;
      forall i | 0 <= i < |table| ensures e.entries[i] == table[i] {}
    }
  }

  lemma DroppedOne(vs: seq<Var>, k: nat, keeps: Var -> bool, size: Dim -> int, e: Entry)
    ensures e in DroppedEntries(DroppedVars(vs, k, keeps), size)
      <==> k < |vs| && ((!keeps(vs[k]) && e == DroppedEntry(vs[k], size))
                        || e in DroppedEntries(DroppedVars(vs, k + 1, keeps), size))
  {
    hide DroppedEntry;
    if k < |vs| {
      var more := DroppedVars(vs, k + 1, keeps);
      assert [] + more == more && ([vs[k]] + more)[1..] == more;
    }
  }

  // ---------------------------------------------------------------- the root

  /** One more entry goes into a table of entries with different names. */
  lemma MergedOne(own: seq<Entry>, k: nat)
    requires Stored(own) && k < |own| && NamesDiffer(own[..k])
    ensures Merged(own[..k], own, k) == if NamesDiffer(own[..k + 1]) then Merged(own[..k + 1], own, k + 1) else None
  {
    var done := own[..k];
    var n := own[k].name;
    assert own[k] in own;
    RemovedNothing(n);
    IndexOfSome(done, n);
    assert done + [own[k]] == own[..k + 1];
    if i :| 0 <= i < k && own[i].name == n {
      assert done[i] in done && own[..k + 1][i].name == own[..k + 1][k].name;
    } else {
      forall e | e in done ensures e.name != n {
        var i :| 0 <= i < k && done[i] == e;
      }
      IndexOfNone(done, n);
    }
  }

  lemma DifferPrefix(own: seq<Entry>, k: nat)
    requires k <= |own| && NamesDiffer(own)
    ensures NamesDiffer(own[..k])
  {
  }

  lemma {:induction false} MergedFresh(own: seq<Entry>, k: nat)
    requires Stored(own) && k <= |own| && NamesDiffer(own[..k])
    ensures Merged(own[..k], own, k) == if NamesDiffer(own) then Some(own) else None
    decreases |own| - k
  {
    if k == |own| {
      assert own[..k] == own;
    } else {
      MergedOne(own, k);
      hide *;
      if NamesDiffer(own) { DifferPrefix(own, k + 1); }
      if NamesDiffer(own[..k + 1]) { MergedFresh(own, k + 1); }
    }
  }

  /** transform_to_dap2 of a whole tree into an empty table: it throws exactly when the
      attributes of a group cannot be translated, two attributes of the root have one name, or a
      name is taken in some group; otherwise the table holds the root's attributes and the
      containers for dropped members and child groups. */
  lemma TablesExact(root: Group, keeps: Var -> bool, size: Dim -> int)
    requires OneRoot(root) && root.name == "/"
    ensures var r := AddGroup([], root, keeps, size);
      && (r.Some? <==> ClearKid(root, keeps) && HeadsDiffer(AllHeads([], root.attrs)))
      && (r.Some? ==> r.value == OwnEntries(root) + GroupEntries(root, keeps, size))
  {
    var own := OwnEntries(root);
    TakesExact([], root.attrs);
    assert Heads([]) == [];
    if ToDap2([], root.attrs).Some? {
      TakenHeads(own);
      AllStored([], root.attrs);
      assert own[..0] == [];
      MergedFresh(own, 0);
      FilledExact(own, root, keeps, size);
    }
  }
}
