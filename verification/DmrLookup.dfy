/** Finding dimensions and enumeration definitions by fully qualified name in the groups
    built so far. */
module DmrLookup {
  import opened Wrappers
  import opened Text
  import opened DmrTree
  import opened DmrPrinter
  import opened D4Heap
  import opened DmrRep

  /** A name that can stand between slashes. */
  predicate GroupName(n: string) { n != "" && Free(n, '/') }

  predicate GroupNames(path: seq<string>) { forall n :: n in path ==> GroupName(n) }

  /** Going down from a group by first-match child names. */
  function Walk(gs: seq<GroupObj>, g: Id, path: seq<string>): (r: Option<Id>)
    ensures r.Some? ==> r.value < |gs|
    decreases |path|
  {
    if g >= |gs| then None
    else if path == [] then Some(g)
    else match FindChild(gs, gs[g].groups, path[0])
      case None => None
      case Some(c) => Walk(gs, c, path[1..])
  }

  predicate RootNamed(gs: seq<GroupObj>) {
    gs != [] && gs[ROOT].name == "/" && gs[ROOT].parent.None?
  }

  lemma JoinSnoc(path: seq<string>, n: string)
    requires path != []
    ensures Join(path + [n]) == path[0] + "/" + Join(path[1..] + [n])
  {
    assert (path + [n])[1..] == path[1..] + [n];
  }

  /** A slash-separated path is followed group by group. */
  lemma {:induction false} FindDimWalks(gs: seq<GroupObj>, g: Id, path: seq<string>, n: string)
    requires GroupNames(path) && Walk(gs, g, path).Some?
    ensures FindDim(gs, g, Join(path + [n])) == FindDim(gs, Walk(gs, g, path).value, n)
    decreases |path|
  {
    if path == [] {
      assert path + [n] == [n];
    } else {
      JoinSnoc(path, n);
      var rest := Join(path[1..] + [n]);
      assert path[0] in path;
      FindAppend(path[0], '/', rest);
      var s := path[0] + "/" + rest;
      assert s[0] == path[0][0] != '/';
      assert s[..|path[0]|] == path[0] && s[|path[0]| + 1..] == rest;
      assert GroupNames(path[1..]);
      FindDimWalks(gs, FindChild(gs, gs[g].groups, path[0]).value, path[1..], n);
    }
  }

  /** A dimension that is found stands where the path says: the groups named between its slashes
      lead to the group that has it. */
  lemma {:induction false} FoundWhereNamed(gs: seq<GroupObj>, g: Id, path: string)
    returns (sub: seq<string>, n: string)
    requires g < |gs| && FindDimBelow(gs, g, path).Found?
    ensures var r := FindDimBelow(gs, g, path).ref;
      && path == Join(sub + [n]) && Free(n, '/') && (forall x :: x in sub ==> Free(x, '/'))
      && Walk(gs, g, sub) == Some(r.group) && IndexOfDim(gs[r.group].dims, n) == Some(r.index)
    decreases |path|
  {
    var pos := Find(path, '/');
    if pos == |path| {
      sub, n := [], path;
      assert [] + [n] == [n];
    } else {
      var x, rest := path[..pos], path[pos + 1..];
      ChildNamed(gs, gs[g].groups, x);
      var c := FindChild(gs, gs[g].groups, x).value;
      assert gs[c].name == x && (x == "" || x[0] != '/');
      var s;
      s, n := FoundWhereNamed(gs, c, rest);
      sub := [x] + s;
      JoinSnoc(sub, n);
      assert sub[1..] == s && path == x + "/" + rest;
    }
  }

  lemma {:induction false} ChildNamed(gs: seq<GroupObj>, kids: seq<Id>, name: string)
    requires FindChild(gs, kids, name).Some?
    ensures var c := FindChild(gs, kids, name).value; c < |gs| && gs[c].name == name
  {
    if !(kids[0] < |gs| && gs[kids[0]].name == name) { ChildNamed(gs, kids[1..], name); }
  }

  lemma {:induction false} IndexOfDimFound(ds: seq<DimDef>, n: string, k: nat)
    requires k < |ds| && ds[k].name == n
    ensures var r := IndexOfDim(ds, n); r.Some? && r.value <= k && ds[r.value].name == n
    decreases |ds|
  {
    if ds[0].name != n { IndexOfDimFound(ds[1..], n, k - 1); }
  }

  lemma {:induction false} IndexOfEnumFound(es: seq<EnumDef>, n: string, k: nat)
    requires k < |es| && es[k].name == n
    ensures var r := IndexOfEnum(es, n); r.Some? && r.value <= k && es[r.value].name == n
    decreases |es|
  {
    if es[0].name != n { IndexOfEnumFound(es[1..], n, k - 1); }
  }

  /** A fully qualified name resolves from the root to a dimension of that very path. */
  predicate DimKnown(gs: seq<GroupObj>, path: seq<string>) {
    var r := FindDim(gs, ROOT, Fqn(path));
    r.Found? && DimRefRep(gs, r.ref, path)
  }

  predicate EnumKnown(gs: seq<GroupObj>, path: seq<string>) {
    var r := FindEnumDef(gs, ROOT, Fqn(path));
    r.Found? && EnumRefRep(gs, r.ref, path)
  }

  /** A group that can be reached from the root by names, and back by parents. */
  predicate Placed(gs: seq<GroupObj>, g: Id, path: seq<string>) {
    && RootNamed(gs) && g < |gs| && GroupNames(path)
    && Walk(gs, ROOT, path) == Some(g) && GroupPath(gs, g) == path
  }

  lemma FqnFromRoot(gs: seq<GroupObj>, path: seq<string>)
    requires RootNamed(gs)
    ensures FindDim(gs, ROOT, Fqn(path)) == FindDimBelow(gs, ROOT, Join(path))
    ensures FindEnumDef(gs, ROOT, Fqn(path)) == FindEnumBelow(gs, ROOT, Join(path))
  {
    var s := Fqn(path);
    assert s[0] == '/' && s[1..] == Join(path);
  }

  /** A dimension of a placed group is found by its fully qualified name. */
  lemma OwnDimKnown(gs: seq<GroupObj>, g: Id, path: seq<string>, k: nat)
    requires Placed(gs, g, path) && k < |gs[g].dims| && Free(gs[g].dims[k].name, '/')
    ensures DimKnown(gs, path + [gs[g].dims[k].name])
  {
    var n := gs[g].dims[k].name;
    var all := path + [n];
    FindFree(n, '/');
    if path == [] {
      assert all == [n] && Join(all) == n;
    } else {
      JoinSnoc(path, n);
      assert path[0] in path && Join(all)[0] == path[0][0];
    }
    FqnFromRoot(gs, all);
    FindDimWalks(gs, ROOT, path, n);
    IndexOfDimFound(gs[g].dims, n, k);
    assert n == "" || n[0] != '/';
    assert FindDim(gs, g, n) == Found(DefRef(g, IndexOfDim(gs[g].dims, n).value));
  }

  lemma {:induction false} JoinTail(path: seq<string>, names: seq<string>)
    requires names != []
    ensures Join(path + names) == Join(path + [Join(names)])
    decreases |path|
  {
    if path == [] {
      assert path + names == names && path + [Join(names)] == [Join(names)];
    } else {
      assert (path + names)[1..] == path[1..] + names;
      assert (path + [Join(names)])[1..] == path[1..] + [Join(names)];
      JoinTail(path[1..], names);
    }
  }

  /** A name relative to a group. */
  predicate Relative(names: seq<string>) {
    names != [] && GroupNames(names[..|names| - 1]) && Free(names[|names| - 1], '/')
  }

  lemma NoLeadingSlash(names: seq<string>)
    requires Relative(names)
    ensures Join(names) == [] || Join(names)[0] != '/'
  {
    if |names| > 1 { assert names[0] in names[..|names| - 1] && Join(names)[0] == names[0][0]; }
  }

  /** A name below a group leads from that group to the same dimension as the fully qualified
      name leads to from the root, if it leads to one at all. */
  lemma RelativeDim(gs: seq<GroupObj>, g: Id, path: seq<string>, names: seq<string>)
    requires Placed(gs, g, path) && Relative(names)
    ensures FindDim(gs, g, Join(names)) == FindDim(gs, ROOT, Fqn(path + names))
  {
    var all := path + names;
    FqnFromRoot(gs, all);
    assert all[..|all| - 1] == path + names[..|names| - 1] && all[|all| - 1] == names[|names| - 1];
    NoLeadingSlash(all);
    JoinTail(path, names);
    FindDimWalks(gs, ROOT, path, Join(names));
  }

  /** An enumeration of a group is found from the group by its own name, however deep the group
      is. */
  lemma OwnEnum(gs: seq<GroupObj>, g: Id, path: seq<string>, k: nat)
    requires Placed(gs, g, path) && k < |gs[g].enums| && Free(gs[g].enums[k].name, '/')
    ensures var r := FindEnumDef(gs, g, gs[g].enums[k].name);
      r.Found? && EnumRefRep(gs, r.ref, path + [gs[g].enums[k].name])
  {
    FindFree(gs[g].enums[k].name, '/');
    IndexOfEnumFound(gs[g].enums, gs[g].enums[k].name, k);
  }

  lemma ChildOfRoot(gs: seq<GroupObj>, g: Id, path: seq<string>)
    requires Placed(gs, g, path) && |path| == 1
    ensures FindChild(gs, gs[ROOT].groups, path[0]) == Some(g) && GroupName(path[0])
  {
    assert path[1..] == [] && path[0] in path;
    var c := FindChild(gs, gs[ROOT].groups, path[0]);
    assert c.Some? && Walk(gs, c.value, path[1..]) == Some(g);
  }

  lemma ChildPath(path: seq<string>, n: string)
    requires |path| == 1
    ensures var s := Join(path + [n]);
      s == path[0] + ['/'] + n && s[..|path[0]|] == path[0] && s[|path[0]| + 1..] == n
  {
    JoinSnoc(path, n);
    assert path[1..] + [n] == [n];
  }

  /** An enumeration of the root or of one of its children is found by its name. */
  lemma OwnEnumKnown(gs: seq<GroupObj>, g: Id, path: seq<string>, k: nat)
    requires Placed(gs, g, path) && |path| <= 1
    requires k < |gs[g].enums| && Free(gs[g].enums[k].name, '/')
    ensures EnumKnown(gs, path + [gs[g].enums[k].name])
  {
    var n := gs[g].enums[k].name;
    var all := path + [n];
    IndexOfEnumFound(gs[g].enums, n, k);
    FqnFromRoot(gs, all);
    if path == [] {
      assert all == [n] && Join(all) == n;
      FindFree(n, '/');
    } else {
      ChildOfRoot(gs, g, path);
      ChildPath(path, n);
      hide Join, Walk, GroupPath, Fqn;
      FindAppend(path[0], '/', n);
    }
  }

  // ---------------------------------------------------------------- growth

  /** Every child pointer leads to a group that exists. */
  predicate Linked(gs: seq<GroupObj>) {
    forall g, i :: 0 <= g < |gs| && 0 <= i < |gs[g].groups| ==> gs[g].groups[i] < |gs|
  }

  lemma {:induction false} FindChildGrows(a: seq<GroupObj>, b: seq<GroupObj>, ka: seq<Id>, kb: seq<Id>, n: string)
    requires GroupsGrow(a, b) && ka <= kb && forall i :: 0 <= i < |ka| ==> ka[i] < |a|
    requires FindChild(a, ka, n).Some?
    ensures FindChild(b, kb, n) == FindChild(a, ka, n) && FindChild(a, ka, n).value in ka
    decreases |ka|
  {
    assert ka[0] == kb[0] && ka[1..] <= kb[1..];
    if a[ka[0]].name != n { FindChildGrows(a, b, ka[1..], kb[1..], n); }
  }

  lemma {:induction false} IndexOfDimGrows(a: seq<DimDef>, b: seq<DimDef>, n: string)
    requires a <= b && IndexOfDim(a, n).Some?
    ensures IndexOfDim(b, n) == IndexOfDim(a, n)
    decreases |a|
  {
    assert a[0] == b[0] && a[1..] <= b[1..];
    if a[0].name != n { IndexOfDimGrows(a[1..], b[1..], n); }
  }

  lemma {:induction false} IndexOfEnumGrows(a: seq<EnumDef>, b: seq<EnumDef>, n: string)
    requires a <= b && IndexOfEnum(a, n).Some?
    ensures IndexOfEnum(b, n) == IndexOfEnum(a, n)
    decreases |a|
  {
    assert a[0] == b[0] && a[1..] <= b[1..];
    if a[0].name != n { IndexOfEnumGrows(a[1..], b[1..], n); }
  }

  lemma {:induction false} FindDimGrows(a: seq<GroupObj>, b: seq<GroupObj>, g: Id, path: string)
    requires GroupsGrow(a, b) && Linked(a) && FindDim(a, g, path).Found?
    ensures FindDim(b, g, path) == FindDim(a, g, path)
    decreases |path|, 1
  {
    FindDimBelowGrows(a, b, g, if path == [] || path[0] != '/' then path else path[1..]);
  }

  lemma {:induction false} FindDimBelowGrows(a: seq<GroupObj>, b: seq<GroupObj>, g: Id, lpath: string)
    requires GroupsGrow(a, b) && Linked(a) && g < |a| && FindDimBelow(a, g, lpath).Found?
    ensures FindDimBelow(b, g, lpath) == FindDimBelow(a, g, lpath)
    decreases |lpath|, 0
  {
    var pos := Find(lpath, '/');
    if pos == |lpath| {
      IndexOfDimGrows(a[g].dims, b[g].dims, lpath);
    } else {
      FindChildGrows(a, b, a[g].groups, b[g].groups, lpath[..pos]);
      FindDimGrows(a, b, FindChild(a, a[g].groups, lpath[..pos]).value, lpath[pos + 1..]);
    }
  }

  lemma FindEnumGrows(a: seq<GroupObj>, b: seq<GroupObj>, g: Id, path: string)
    requires GroupsGrow(a, b) && Linked(a) && FindEnumDef(a, g, path).Found?
    ensures FindEnumDef(b, g, path) == FindEnumDef(a, g, path)
  {
    var lpath := if path == [] || path[0] != '/' then path else path[1..];
    var pos := Find(lpath, '/');
    if pos == |lpath| {
      IndexOfEnumGrows(a[g].enums, b[g].enums, lpath);
    } else {
      FindChildGrows(a, b, a[g].groups, b[g].groups, lpath[..pos]);
      var c := FindChild(a, a[g].groups, lpath[..pos]).value;
      IndexOfEnumGrows(a[c].enums, b[c].enums, lpath[pos + 1..]);
    }
  }

  /** What is known stays known. */
  lemma KnownGrows(a: seq<GroupObj>, b: seq<GroupObj>, path: seq<string>)
    requires GroupsGrow(a, b) && Linked(a)
    ensures DimKnown(a, path) ==> DimKnown(b, path)
    ensures EnumKnown(a, path) ==> EnumKnown(b, path)
  {
    if DimKnown(a, path) {
      FindDimGrows(a, b, ROOT, Fqn(path));
      PathStable(a, b, FindDim(a, ROOT, Fqn(path)).ref.group);
    }
    if EnumKnown(a, path) {
      FindEnumGrows(a, b, ROOT, Fqn(path));
      PathStable(a, b, FindEnumDef(a, ROOT, Fqn(path)).ref.group);
    }
  }

  lemma {:induction false} WalkGrows(a: seq<GroupObj>, b: seq<GroupObj>, g: Id, path: seq<string>)
    requires GroupsGrow(a, b) && Linked(a) && Walk(a, g, path).Some?
    ensures Walk(b, g, path) == Walk(a, g, path)
    decreases |path|
  {
    if path != [] {
      FindChildGrows(a, b, a[g].groups, b[g].groups, path[0]);
      WalkGrows(a, b, FindChild(a, a[g].groups, path[0]).value, path[1..]);
    }
  }

  lemma PlacedGrows(a: seq<GroupObj>, b: seq<GroupObj>, g: Id, path: seq<string>)
    requires GroupsGrow(a, b) && Linked(a) && Placed(a, g, path)
    ensures Placed(b, g, path)
  {
    WalkGrows(a, b, ROOT, path);
    PathStable(a, b, g);
  }

  lemma {:induction false} WalkSnoc(gs: seq<GroupObj>, g: Id, path: seq<string>, n: string)
    requires Walk(gs, g, path).Some?
    ensures Walk(gs, g, path + [n]) ==
            match FindChild(gs, gs[Walk(gs, g, path).value].groups, n)
            case None => None case Some(c) => Walk(gs, c, [])
    decreases |path|
  {
    if path == [] {
      assert path + [n] == [n] && [n][1..] == [];
    } else {
      assert (path + [n])[0] == path[0] && (path + [n])[1..] == path[1..] + [n];
      WalkSnoc(gs, FindChild(gs, gs[g].groups, path[0]).value, path[1..], n);
    }
  }

  lemma {:induction false} FindChildLast(gs: seq<GroupObj>, kids: seq<Id>, c: Id, n: string)
    requires c < |gs| && gs[c].name == n
    requires forall k :: k in kids ==> k < |gs| && gs[k].name != n
    ensures FindChild(gs, kids + [c], n) == Some(c)
    decreases |kids|
  {
    if kids == [] {
      assert kids + [c] == [c];
    } else {
      assert (kids + [c])[0] == kids[0] && (kids + [c])[1..] == kids[1..] + [c];
      forall k | k in kids[1..] ensures k < |gs| && gs[k].name != n { assert k in kids; }
      FindChildLast(gs, kids[1..], c, n);
    }
  }

  /** A new last child whose name none of its siblings bears is placed below its parent. */
  lemma ChildPlaced(a: seq<GroupObj>, b: seq<GroupObj>, g: Id, path: seq<string>, n: string)
    requires Placed(a, g, path) && Linked(a) && GroupName(n)
    requires forall i :: 0 <= i < |a[g].groups| ==> a[a[g].groups[i]].name != n
    requires GroupsGrow(a, b) && |b| == |a| + 1 && b[g].groups == a[g].groups + [|a|]
    requires b[|a|].name == n && b[|a|].parent == Some(g)
    ensures Placed(b, |a|, path + [n])
  {
    PlacedGrows(a, b, g, path);
    WalkSnoc(b, ROOT, path, n);
    FindChildLast(b, a[g].groups, |a|, n);
  }
}
