/** The fully qualified name of a shared dimension, and finding the dimension by it. */
module D4Dimensions {
  import opened Wrappers
  import opened Text
  import opened DmrTree
  import opened DmrPrinter
  import opened D4Heap
  import opened DmrRep
  import opened DmrLookup

  /** Parents come before their children, and only the root has none. */
  predicate Rooted(gs: seq<GroupObj>) {
    && RootNamed(gs)
    && forall g :: 0 < g < |gs| ==> gs[g].parent.Some? && gs[g].parent.value < g && gs[g].name != "/"
  }

  lemma JoinFront(n: string, path: seq<string>)
    requires path != []
    ensures Join([n] + path) == n + "/" + Join(path)
  {
    assert ([n] + path)[1..] == path;
  }

  /** D4Dimension::fully_qualified_name: the loop from the group of the dimension upwards. */
  method FullyQualifiedName(gs: seq<GroupObj>, group: Id, dim: string) returns (name: string)
    requires Rooted(gs) && group < |gs|
    ensures name == Fqn(GroupPath(gs, group) + [dim])
  {
    name := dim;
    var grp: Option<Id> := Some(group);
    ghost var below := [dim];
    while grp.Some?
      invariant grp.Some? ==> grp.value < |gs| && name == Join(below) && below != []
      invariant grp.Some? ==> GroupPath(gs, grp.value) + below == GroupPath(gs, group) + [dim]
      invariant grp.None? ==> name == Fqn(GroupPath(gs, group) + [dim])
      decreases if grp.Some? then grp.value + 1 else 0
    {
      var o := gs[grp.value];
      if o.name == "/" {
        assert grp.value == ROOT && GroupPath(gs, ROOT) == [] && [] + below == below;
        name := "/" + name;
      } else {
        JoinFront(o.name, below);
        name := o.name + "/" + name;
        ghost var up := GroupPath(gs, o.parent.value);
        assert up + [o.name] + below == up + ([o.name] + below);
        below := [o.name] + below;
      }
      grp := o.parent;
    }
  }

  lemma {:induction false} FirstDim(ds: seq<DimDef>, k: nat)
    requires k < |ds| && forall i, j :: 0 <= i < j < |ds| ==> ds[i].name != ds[j].name
    ensures IndexOfDim(ds, ds[k].name) == Some(k)
    decreases |ds|
  {
    if k > 0 {
      assert ds[0].name != ds[k].name && ds[1..][k - 1] == ds[k];
      forall i, j | 0 <= i < j < |ds[1..]| ensures ds[1..][i].name != ds[1..][j].name {
        assert ds[i + 1].name != ds[j + 1].name;
      }
      FirstDim(ds[1..], k - 1);
    }
  }

  /** find_dim from the root on the fully qualified name of a dimension returns that very
      dimension, however deep its group. */
  lemma DimFoundByFqn(gs: seq<GroupObj>, g: Id, path: seq<string>, k: nat)
    requires Placed(gs, g, path) && k < |gs[g].dims| && Free(gs[g].dims[k].name, '/')
    requires forall i, j :: 0 <= i < j < |gs[g].dims| ==> gs[g].dims[i].name != gs[g].dims[j].name
    ensures FindDim(gs, ROOT, Fqn(GroupPath(gs, g) + [gs[g].dims[k].name])) == Found(DefRef(g, k))
  {
    var n := gs[g].dims[k].name;
    var all := path + [n];
    FindFree(n, '/');
    FirstDim(gs[g].dims, k);
    FqnFromRoot(gs, all);
    FindDimWalks(gs, ROOT, path, n);
    if path == [] {
      assert all == [n] && Join(all) == n;
    } else {
      JoinSnoc(path, n);
      assert path[0] in path && Join(all)[0] == path[0][0];
    }
  }
}
