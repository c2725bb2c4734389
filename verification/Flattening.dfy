/** Turning a tree of groups into the flat list of variables of a DAP2 data set. */
module Flattening {
  import opened Wrappers
  import opened Text
  import opened DmrTree
  import opened Names
  import SpaceEncoding
  import A = AttrTranslation
  import G = GroupTables

  /** A variable of the DAP2 data set and the DAP4 variable it comes from. */
  datatype Dap2Var = Dap2Var(name: string, source: Place)

  // ---------------------------------------------------------------- the result as functions

  /** What comes before the name of a result: nothing for members of the root.  Setting a name
      takes out its escapes. */
  function Prefix(root: bool, fqn: string): string { if root then "" else fqn }

  /** D4Group::FQN, given that of the group above. */
  function Fqn(g: Group, above: string): string { if g.name == "/" then "/" else above + g.name + "/" }

  /** The members from position k on that convert to a DAP2 variable. */
  function Converted(vs: seq<Var>, k: nat, path: seq<nat>, prefix: string, keeps: Var -> bool): seq<Dap2Var>
    decreases |vs| - k
  {
    if k >= |vs| then []
    else (if keeps(vs[k]) then [Dap2Var(Www2Id(prefix + vs[k].name), Place(path, [Member(k)]))] else [])
         + Converted(vs, k + 1, path, prefix, keeps)
  }

  /** The results for a group whose place is `path` and whose name in full is `fqn`. */
  function Flat(g: Group, path: seq<nat>, fqn: string, keeps: Var -> bool): seq<Dap2Var>
    decreases g, |g.groups| + 1
  {
    Converted(g.vars, 0, path, Prefix(g.name == "/", fqn), keeps) + FlatFrom(g, 0, path, fqn, keeps)
  }

  function FlatFrom(g: Group, k: nat, path: seq<nat>, fqn: string, keeps: Var -> bool): seq<Dap2Var>
    decreases g, |g.groups| - k
  {
    if k >= |g.groups| then []
    else Flat(g.groups[k], path + [k], Fqn(g.groups[k], fqn), keeps) + FlatFrom(g, k + 1, path, fqn, keeps)
  }

  // ---------------------------------------------------------------- the loops

  /** D4Group::transform_to_dap2, for members that convert to nothing or to one variable of the
      same name; `parent` is the attribute table of the group above.  `ok` is false when a name
      is taken, or an attribute cannot be translated. */
  method TransformToDap2(g: Group, path: seq<nat>, fqn: string, keeps: Var -> bool, size: Dim -> int,
                         parent: A.AttrTable)
    returns (ok: bool, results: seq<Dap2Var>)
    modifies parent
    ensures match G.AddGroup(old(parent.entries), g, keeps, size)
      case None => !ok
      case Some(es) => ok && parent.entries == es && results == Flat(g, path, fqn, keeps)
    decreases g, |g.groups| + 1
  {
    hide Converted, G.WithDropped, A.ToDap2, G.Merged, A.AppendContainer;
    var isRoot := g.name == "/";
    results := [];
    var groupAttrs := new A.AttrTable();
    ok := groupAttrs.Load(g.attrs);
    if !ok { return; }
    if isRoot {
      ok := CopyAttributes(groupAttrs, parent);
      if !ok { return; }
      groupAttrs := parent;
    }
    G.FilledSteps(groupAttrs.entries, g, keeps, size);
    var dropped;
    results, dropped := ConvertMembers(g.vars, path, Prefix(isRoot, fqn), keeps);
    ok := AppendDropped(dropped, size, groupAttrs);
    if !ok { return; }
    ok, results := TransformChildren(g, path, fqn, keeps, size, results, groupAttrs);
    if ok && !isRoot {
      var name := SpaceEncoding.RemoveSpaceEncoding(g.name);
      ok := parent.AppendTable(name, groupAttrs);
    }
  }

  /** The root's attributes go into the table it is given. */
  method CopyAttributes(own: A.AttrTable, parent: A.AttrTable) returns (ok: bool)
    requires own != parent
    modifies parent
    ensures match G.Merged(old(parent.entries), old(own.entries), 0)
      case None => !ok
      case Some(es) => ok && parent.entries == es
  {
    hide A.AppendAttrs, A.AppendContainer, A.StringType, A.TypeString;
    var i := 0;
    while i < |own.entries|
      invariant 0 <= i <= |own.entries|
      invariant G.Merged(parent.entries, own.entries, i) == G.Merged(old(parent.entries), own.entries, 0)
    {
      match own.entries[i] {
        case Values(n, t, vs) =>
          A.TypeNamesReturn(t);
          ok := parent.AppendList(n, A.TypeString(t), vs);
        case Table(n, sub) =>
          var at := new A.AttrTable();
          at.entries := sub;
          ok := parent.AppendTable(n, at);
      }
      if !ok { return; }
      i := i + 1;
    }
    ok := true;
  }

  /** The loop over the member variables. */
  method ConvertMembers(vs: seq<Var>, path: seq<nat>, prefix: string, keeps: Var -> bool)
    returns (results: seq<Dap2Var>, dropped: seq<Var>)
    ensures results == Converted(vs, 0, path, prefix, keeps) && dropped == G.DroppedVars(vs, 0, keeps)
  {
    results, dropped := [], [];
    var i := 0;
    while i < |vs|
      invariant 0 <= i <= |vs|
      invariant results + Converted(vs, i, path, prefix, keeps) == Converted(vs, 0, path, prefix, keeps)
      invariant dropped + G.DroppedVars(vs, i, keeps) == G.DroppedVars(vs, 0, keeps)
    {
      if keeps(vs[i]) {
        results := results + [Dap2Var(Www2Id(prefix + vs[i].name), Place(path, [Member(i)]))];
      } else {
        dropped := dropped + [vs[i]];
      }
      i := i + 1;
    }
  }

  /** make_dropped_vars_attr_table, and its result goes into the group's table. */
  method AppendDropped(ds: seq<Var>, size: Dim -> int, table: A.AttrTable) returns (ok: bool)
    modifies table
    ensures match G.WithDropped(old(table.entries), ds, size)
      case None => !ok
      case Some(es) => ok && table.entries == es
  {
    hide A.AppendContainer, G.MemberTable;
    if ds == [] { return true; }
    var dropped := new A.AttrTable();
    var i := 0;
    assert ds[0..] == ds;
    while i < |ds|
      invariant 0 <= i <= |ds| && fresh(dropped) && table.entries == old(table.entries)
      invariant G.DroppedTable(dropped.entries, ds[i..], size) == G.DroppedTable([], ds, size)
    {
      assert ds[i..][0] == ds[i] && ds[i..][1..] == ds[i + 1..];
      var member := new A.AttrTable();
      member.entries := G.MemberTable(ds[i], size);
      var name := SpaceEncoding.RemoveSpaceEncoding(ds[i].name);
      ok := dropped.AppendTable(name, member);
      if !ok { return; }
      i := i + 1;
    }
    assert ds[i..] == [];
    ok := table.AppendTable(G.DROPPED, dropped);
  }

  /** The loop over the child groups. */
  method TransformChildren(g: Group, path: seq<nat>, fqn: string, keeps: Var -> bool, size: Dim -> int,
                           before: seq<Dap2Var>, table: A.AttrTable)
    returns (ok: bool, results: seq<Dap2Var>)
    modifies table
    ensures match G.AddGroups(old(table.entries), g, 0, keeps, size)
      case None => !ok
      case Some(es) => ok && table.entries == es && results == before + FlatFrom(g, 0, path, fqn, keeps)
    decreases g, 0
  {
    hide Flat, G.AddGroup;
    results := before;
    var k := 0;
    while k < |g.groups|
      invariant 0 <= k <= |g.groups|
      invariant G.AddGroups(table.entries, g, k, keeps, size) == G.AddGroups(old(table.entries), g, 0, keeps, size)
      invariant results + FlatFrom(g, k, path, fqn, keeps) == before + FlatFrom(g, 0, path, fqn, keeps)
    {
      var more;
      ok, more := TransformToDap2(g.groups[k], path + [k], Fqn(g.groups[k], fqn), keeps, size, table);
      if !ok { return; }
      results := results + more;
      k := k + 1;
    }
    ok := true;
  }

  // ---------------------------------------------------------------- nothing lost, nothing invented

  /** The places of all variables of the groups of a tree, each group before its child groups. */
  function VarPlaces(n: nat, k: nat, path: seq<nat>): seq<Place>
    decreases n - k
  {
    if k >= n then [] else [Place(path, [Member(k)])] + VarPlaces(n, k + 1, path)
  }

  function Places(g: Group, path: seq<nat>): seq<Place>
    decreases g, |g.groups| + 1
  {
    VarPlaces(|g.vars|, 0, path) + PlacesFrom(g, 0, path)
  }

  function PlacesFrom(g: Group, k: nat, path: seq<nat>): seq<Place>
    decreases g, |g.groups| - k
  {
    if k >= |g.groups| then [] else Places(g.groups[k], path + [k]) + PlacesFrom(g, k + 1, path)
  }

  /** Those places whose variable converts. */
  function Keep(root: Group, ps: seq<Place>, keeps: Var -> bool): seq<Place> {
    if ps == [] then []
    else (if KeptAt(root, ps[0], keeps) then [ps[0]] else []) + Keep(root, ps[1..], keeps)
  }

  predicate KeptAt(root: Group, p: Place, keeps: Var -> bool) {
    GroupAt(root, p.groups).Some?
    && VarAt(GroupAt(root, p.groups).value.vars, p.steps).Some?
    && keeps(VarAt(GroupAt(root, p.groups).value.vars, p.steps).value)
  }

  function Sources(rs: seq<Dap2Var>): seq<Place> {
    if rs == [] then [] else [rs[0].source] + Sources(rs[1..])
  }

  lemma {:induction false} SourcesConcat(a: seq<Dap2Var>, b: seq<Dap2Var>)
    ensures Sources(a + b) == Sources(a) + Sources(b)
    decreases |a|
  {
    if a == [] {
      assert a + b == b;
    } else {
      assert (a + b)[0] == a[0] && (a + b)[1..] == a[1..] + b;
      SourcesConcat(a[1..], b);
    }
  }

  lemma {:induction false} KeepConcat(root: Group, a: seq<Place>, b: seq<Place>, keeps: Var -> bool)
    ensures Keep(root, a + b, keeps) == Keep(root, a, keeps) + Keep(root, b, keeps)
    decreases |a|
  {
    if a == [] {
      assert a + b == b;
    } else {
      assert (a + b)[0] == a[0] && (a + b)[1..] == a[1..] + b;
      KeepConcat(root, a[1..], b, keeps);
    }
  }

  lemma {:induction false} GroupAtSnoc(root: Group, path: seq<nat>, k: nat)
    requires GroupAt(root, path).Some? && k < |GroupAt(root, path).value.groups|
    ensures GroupAt(root, path + [k]) == Some(GroupAt(root, path).value.groups[k])
    decreases |path|
  {
    if path == [] {
      assert [] + [k] == [k] && [k][1..] == [];
    } else {
      assert (path + [k])[0] == path[0] && (path + [k])[1..] == path[1..] + [k];
      GroupAtSnoc(root.groups[path[0]], path[1..], k);
    }
  }

  lemma {:induction false} ConvertedSources(root: Group, g: Group, k: nat, path: seq<nat>, prefix: string,
                                            keeps: Var -> bool)
    requires GroupAt(root, path) == Some(g)
    ensures Sources(Converted(g.vars, k, path, prefix, keeps)) == Keep(root, VarPlaces(|g.vars|, k, path), keeps)
    decreases |g.vars| - k
  {
    if k < |g.vars| {
      ConvertedSources(root, g, k + 1, path, prefix, keeps);
      var one := if keeps(g.vars[k]) then [Dap2Var(Www2Id(prefix + g.vars[k].name), Place(path, [Member(k)]))] else [];
      SourcesConcat(one, Converted(g.vars, k + 1, path, prefix, keeps));
      var p := Place(path, [Member(k)]);
      assert [Member(k)][1..] == [] && VarAt(g.vars, [Member(k)]) == Some(g.vars[k]);
      assert KeptAt(root, p, keeps) <==> keeps(g.vars[k]);
      var more := VarPlaces(|g.vars|, k + 1, path);
      assert ([p] + more)[1..] == more;
    }
  }

  /** The results come from exactly the variables that convert, in preorder. */
  lemma {:induction false} FlatSources(root: Group, g: Group, path: seq<nat>, fqn: string, keeps: Var -> bool)
    requires GroupAt(root, path) == Some(g)
    ensures Sources(Flat(g, path, fqn, keeps)) == Keep(root, Places(g, path), keeps)
    decreases g, |g.groups| + 1
  {
    var own := Converted(g.vars, 0, path, Prefix(g.name == "/", fqn), keeps);
    ConvertedSources(root, g, 0, path, Prefix(g.name == "/", fqn), keeps);
    FlatFromSources(root, g, 0, path, fqn, keeps);
    SourcesConcat(own, FlatFrom(g, 0, path, fqn, keeps));
    KeepConcat(root, VarPlaces(|g.vars|, 0, path), PlacesFrom(g, 0, path), keeps);
  }

  lemma {:induction false} FlatFromSources(root: Group, g: Group, k: nat, path: seq<nat>, fqn: string,
                                           keeps: Var -> bool)
    requires GroupAt(root, path) == Some(g)
    ensures Sources(FlatFrom(g, k, path, fqn, keeps)) == Keep(root, PlacesFrom(g, k, path), keeps)
    decreases g, |g.groups| - k
  {
    FromSteps(g, k, path, fqn, keeps);
    hide *;
    if k >= |g.groups| {
      NothingKept(root, keeps);
    } else {
      var c := g.groups[k];
      GroupAtSnoc(root, path, k);
      FlatSources(root, c, path + [k], Fqn(c, fqn), keeps);
      FlatFromSources(root, g, k + 1, path, fqn, keeps);
      SourcesConcat(Flat(c, path + [k], Fqn(c, fqn), keeps), FlatFrom(g, k + 1, path, fqn, keeps));
      KeepConcat(root, Places(c, path + [k]), PlacesFrom(g, k + 1, path), keeps);
    }
  }

  lemma FromSteps(g: Group, k: nat, path: seq<nat>, fqn: string, keeps: Var -> bool)
    ensures FlatFrom(g, k, path, fqn, keeps) ==
      if k >= |g.groups| then []
      else Flat(g.groups[k], path + [k], Fqn(g.groups[k], fqn), keeps) + FlatFrom(g, k + 1, path, fqn, keeps)
    ensures PlacesFrom(g, k, path) ==
      if k >= |g.groups| then [] else Places(g.groups[k], path + [k]) + PlacesFrom(g, k + 1, path)
  {
    hide Flat, Places;
  }

  lemma NothingKept(root: Group, keeps: Var -> bool)
    ensures Sources([]) == Keep(root, [], keeps)
  {
  }

  // ---------------------------------------------------------------- names lead back

  lemma {:induction false} GroupsFqnSnoc(root: Group, path: seq<nat>, k: nat)
    requires GroupAt(root, path).Some? && k < |GroupAt(root, path).value.groups|
    ensures GroupAt(root, path + [k]).Some?
    ensures GroupsFqn(root, path + [k]) == GroupsFqn(root, path) + GroupAt(root, path).value.groups[k].name + "/"
    decreases |path|
  {
    GroupAtSnoc(root, path, k);
    if path == [] {
      assert [] + [k] == [k] && [k][1..] == [];
      assert "" + root.groups[k].name == root.groups[k].name;
      assert GroupsFqn(root.groups[k], []) == "";
      assert root.groups[k].name + "/" + "" == root.groups[k].name + "/";
    } else {
      assert (path + [k])[0] == path[0] && (path + [k])[1..] == path[1..] + [k];
      var c := root.groups[path[0]];
      GroupsFqnSnoc(c, path[1..], k);
      var n := GroupAt(root, path).value.groups[k].name;
      assert c.name + "/" + (GroupsFqn(c, path[1..]) + n + "/") == (c.name + "/" + GroupsFqn(c, path[1..])) + n + "/";
    }
  }

  /** What every result has to be: named after its variable, which find_var gives back. */
  predicate LeadsBack(root: Group, r: Dap2Var, keeps: Var -> bool) {
    KeptAt(root, r.source, keeps) && FindVar(root, r.name) == At(r.source)
  }

  lemma {:induction false} GroupsFqnPlain(g: Group, path: seq<nat>)
    requires WellNamed(g) && GroupAt(g, path).Some?
    ensures Free(GroupsFqn(g, path), '%')
    decreases |path|
  {
    if path != [] { GroupsFqnPlain(g.groups[path[0]], path[1..]); }
  }

  lemma OneLeadsBack(root: Group, g: Group, k: nat, path: seq<nat>, keeps: Var -> bool)
    requires root.name == "/" && WellNamed(root) && GroupAt(root, path) == Some(g)
    requires k < |g.vars| && keeps(g.vars[k])
    ensures var prefix := Prefix(path == [], "/" + GroupsFqn(root, path));
      LeadsBack(root, Dap2Var(Www2Id(prefix + g.vars[k].name), Place(path, [Member(k)])), keeps)
  {
    var p := Place(path, [Member(k)]);
    var n := g.vars[k].name;
    assert [Member(k)][1..] == [] && VarAt(g.vars, [Member(k)]) == Some(g.vars[k]);
    WellNamedAt(root, path);
    assert WellNamedVar(g.vars[k]);
    assert Declares(g.vars, [Member(k)]) && NamesOf(g.vars, [Member(k)]) == [n] && Dotted([n]) == n;
    DottedLookup(g.vars, [Member(k)]);
    assert VarIn(g.vars, n) == Some([Member(k)]);
    GroupsFqnPlain(root, path);
    Www2IdPlain(Prefix(path == [], "/" + GroupsFqn(root, path)) + n);
    hide VarIn, GroupsFqn, WellNamed, WellNamedVars, FindVarBelow, Www2Id, Free, GroupAt;
    if path == [] {
      RootMember(root, n);
    } else {
      RootedLookup(root, path, n);
    }
  }

  lemma RootMember(root: Group, n: string)
    requires WellNamed(root) && Free(n, '/') && n != ""
    ensures FindVar(root, "" + n) == match VarIn(root.vars, n) case None => Absent case Some(t) => At(Place([], t))
  {
    GroupsFollowed(root, [], n);
    assert "" + n == n;
  }

  lemma {:induction false} ConvertedLeadBack(root: Group, g: Group, k: nat, path: seq<nat>, keeps: Var -> bool)
    requires root.name == "/" && WellNamed(root) && GroupAt(root, path) == Some(g)
    ensures var rs := Converted(g.vars, k, path, Prefix(path == [], "/" + GroupsFqn(root, path)), keeps);
      forall r :: r in rs ==> LeadsBack(root, r, keeps)
    decreases |g.vars| - k
  {
    if k < |g.vars| {
      ConvertedLeadBack(root, g, k + 1, path, keeps);
      if keeps(g.vars[k]) { OneLeadsBack(root, g, k, path, keeps); }
    }
  }

  lemma {:induction false} FlatLeadsBack(root: Group, g: Group, path: seq<nat>, keeps: Var -> bool)
    requires root.name == "/" && WellNamed(root) && GroupAt(root, path) == Some(g)
    requires g.name == "/" <==> path == []
    ensures forall r :: r in Flat(g, path, "/" + GroupsFqn(root, path), keeps) ==> LeadsBack(root, r, keeps)
    decreases g, |g.groups| + 1
  {
    ConvertedLeadBack(root, g, 0, path, keeps);
    WellNamedAt(root, path);
    FlatFromLeadsBack(root, g, 0, path, keeps);
  }

  lemma {:induction false} FlatFromLeadsBack(root: Group, g: Group, k: nat, path: seq<nat>, keeps: Var -> bool)
    requires root.name == "/" && WellNamed(root) && GroupAt(root, path) == Some(g) && WellNamed(g)
    ensures forall r :: r in FlatFrom(g, k, path, "/" + GroupsFqn(root, path), keeps) ==> LeadsBack(root, r, keeps)
    decreases g, |g.groups| - k
  {
    hide Flat, LeadsBack, GroupAt, WellNamedVars;
    if k < |g.groups| {
      var c := g.groups[k];
      var fqn := "/" + GroupsFqn(root, path);
      assert c.name != "/" by { assert Free(c.name, '/') && "/"[0] == '/'; }
      GroupAtSnoc(root, path, k);
      GroupsFqnSnoc(root, path, k);
      assert fqn + c.name + "/" == "/" + (GroupsFqn(root, path) + c.name + "/");
      FlatLeadsBack(root, c, path + [k], keeps);
      FlatFromLeadsBack(root, g, k + 1, path, keeps);
    }
  }

  // ---------------------------------------------------------------- no name twice

  predicate NoRepeats(ps: seq<Place>) { forall i, j :: 0 <= i < j < |ps| ==> ps[i] != ps[j] }

  predicate Extends(path: seq<nat>, p: Place, k: nat) {
    |p.groups| > |path| && p.groups[..|path|] == path && p.groups[|path|] >= k
  }

  lemma {:induction false} VarPlacesShape(n: nat, k: nat, path: seq<nat>)
    ensures NoRepeats(VarPlaces(n, k, path))
    ensures forall p :: p in VarPlaces(n, k, path) ==>
      p.groups == path && |p.steps| == 1 && p.steps[0].Member? && p.steps[0].index >= k
    decreases n - k
  {
    if k < n {
      VarPlacesShape(n, k + 1, path);
      var ps := VarPlaces(n, k, path);
      var rest := VarPlaces(n, k + 1, path);
      forall i, j | 0 <= i < j < |ps| ensures ps[i] != ps[j] {
        if i == 0 { assert ps[j] == rest[j - 1] && rest[j - 1] in rest; }
      }
    }
  }

  lemma NoRepeatsConcat(a: seq<Place>, b: seq<Place>)
    requires NoRepeats(a) && NoRepeats(b) && forall p :: p in a ==> p !in b
    ensures NoRepeats(a + b)
  {
    var s := a + b;
    forall i, j | 0 <= i < j < |s| ensures s[i] != s[j] {
      if i < |a| <= j { assert s[i] in a && s[j] == b[j - |a|] && b[j - |a|] in b; }
    }
  }

  lemma {:induction false} PlacesShape(g: Group, path: seq<nat>)
    ensures NoRepeats(Places(g, path))
    ensures forall p :: p in Places(g, path) ==> p.groups == path || Extends(path, p, 0)
    decreases g, |g.groups| + 1
  {
    VarPlacesShape(|g.vars|, 0, path);
    PlacesFromShape(g, 0, path);
    NoRepeatsConcat(VarPlaces(|g.vars|, 0, path), PlacesFrom(g, 0, path));
  }

  lemma {:induction false} PlacesFromShape(g: Group, k: nat, path: seq<nat>)
    ensures NoRepeats(PlacesFrom(g, k, path))
    ensures forall p :: p in PlacesFrom(g, k, path) ==> Extends(path, p, k)
    decreases g, |g.groups| - k
  {
    if k < |g.groups| {
      var a, b := Places(g.groups[k], path + [k]), PlacesFrom(g, k + 1, path);
      PlacesShape(g.groups[k], path + [k]);
      PlacesFromShape(g, k + 1, path);
      forall p | p in a ensures Extends(path, p, k) && p.groups[|path|] == k {
        assert p.groups == path + [k] || p.groups[..|path| + 1] == path + [k];
        assert p.groups[..|path| + 1][|path|] == k && p.groups[..|path| + 1][..|path|] == path by {
          if p.groups == path + [k] { assert p.groups[..|path| + 1] == p.groups; }
        }
        assert p.groups[..|path|] == p.groups[..|path| + 1][..|path|];
      }
      forall p | p in a ensures p !in b { assert p.groups[|path|] == k; }
      NoRepeatsConcat(a, b);
    }
  }

  lemma {:induction false} KeepShape(root: Group, ps: seq<Place>, keeps: Var -> bool)
    requires NoRepeats(ps)
    ensures NoRepeats(Keep(root, ps, keeps))
    ensures forall p :: p in Keep(root, ps, keeps) <==> p in ps && KeptAt(root, p, keeps)
    decreases |ps|
  {
    if ps != [] {
      assert forall i, j :: 0 <= i < j < |ps[1..]| ==> ps[1..][i] == ps[i + 1] && ps[1..][j] == ps[j + 1];
      KeepShape(root, ps[1..], keeps);
      assert ps == [ps[0]] + ps[1..];
      assert ps[0] !in ps[1..];
      var one := if KeptAt(root, ps[0], keeps) then [ps[0]] else [];
      NoRepeatsConcat(one, Keep(root, ps[1..], keeps));
    }
  }

  lemma {:induction false} SourceAt(rs: seq<Dap2Var>)
    ensures |Sources(rs)| == |rs| && forall i :: 0 <= i < |rs| ==> Sources(rs)[i] == rs[i].source
    decreases |rs|
  {
    if rs != [] { SourceAt(rs[1..]); }
  }

  /** The results of transform_to_dap2 of a whole data set into an empty table, and that table. */
  function Transformed(root: Group, keeps: Var -> bool, size: Dim -> int): Option<(seq<Dap2Var>, seq<A.Entry>)> {
    match G.AddGroup([], root, keeps, size) case None => None case Some(es) => Some((Flat(root, [], "/", keeps), es))
  }

  lemma {:induction false} WellNamedOneRoot(g: Group)
    requires WellNamed(g)
    ensures G.OneRoot(g)
    decreases g
  {
    forall i | 0 <= i < |g.groups| ensures g.groups[i].name != "/" && G.OneRoot(g.groups[i]) {
      assert Free(g.groups[i].name, '/') && "/"[0] == '/';
      WellNamedOneRoot(g.groups[i]);
    }
  }

  /** Flattening a well-named tree throws exactly when an attribute cannot go into the table of
      its group, or a container's name is taken.  Otherwise the results are the variables that
      convert, each once and in preorder; find_var on the name of a result gives back its
      source, and so the names are all different; and the table holds the root's attributes,
      the other variables, and a table for each child group. */
  lemma FlatteningFaithful(root: Group, keeps: Var -> bool, size: Dim -> int)
    requires root.name == "/" && WellNamed(root)
    ensures Transformed(root, keeps, size).Some? <==>
      G.ClearKid(root, keeps) && G.HeadsDiffer(A.AllHeads([], root.attrs))
    ensures Transformed(root, keeps, size).Some? ==>
      var (rs, es) := Transformed(root, keeps, size).value;
      && Sources(rs) == Keep(root, Places(root, []), keeps) && NoRepeats(Sources(rs))
      && (forall r :: r in rs ==> LeadsBack(root, r, keeps))
      && (forall i, j :: 0 <= i < j < |rs| ==> rs[i].name != rs[j].name)
      && es == G.OwnEntries(root) + G.GroupEntries(root, keeps, size)
  {
    WellNamedOneRoot(root);
    G.TablesExact(root, keeps, size);
    hide G.AddGroup, G.GroupEntries, G.ClearKid, G.OwnEntries, A.AllHeads;
    ResultsFaithful(root, keeps);
  }

  lemma ResultsFaithful(root: Group, keeps: Var -> bool)
    requires root.name == "/" && WellNamed(root)
    ensures var rs := Flat(root, [], "/", keeps);
      && Sources(rs) == Keep(root, Places(root, []), keeps) && NoRepeats(Sources(rs))
      && (forall r :: r in rs ==> LeadsBack(root, r, keeps))
      && (forall i, j :: 0 <= i < j < |rs| ==> rs[i].name != rs[j].name)
  {
    var rs := Flat(root, [], "/", keeps);
    assert "/" + GroupsFqn(root, []) == "/";
    FlatSources(root, root, [], "/", keeps);
    FlatLeadsBack(root, root, [], keeps);
    PlacesShape(root, []);
    KeepShape(root, Places(root, []), keeps);
    SourceAt(rs);
    forall i, j | 0 <= i < j < |rs| ensures rs[i].name != rs[j].name {
      assert LeadsBack(root, rs[i], keeps) && LeadsBack(root, rs[j], keeps);
      assert Sources(rs)[i] != Sources(rs)[j];
    }
  }

  /** A child group with the name of the container for dropped members, beside a variable that
      is dropped. */
  lemma ReservedName(v: Var, keeps: Var -> bool, size: Dim -> int)
    requires !keeps(v)
    ensures Transformed(Group("/", [], [], [v], [], [Group("dap4:dropped_members", [], [], [], [], [])]), keeps, size)
      == None
  {
    var c := Group(G.DROPPED, [], [], [], [], []);
    var root := Group("/", [], [], [v], [], [c]);
    assert G.DROPPED != "/" && G.OneRoot(c) && G.OneRoot(root);
    G.TablesExact(root, keeps, size);
    assert SpaceEncoding.NoCode(G.DROPPED);
    SpaceEncoding.RemovedNothing(G.DROPPED);
    assert G.KidNames(root.groups, 0) == [G.DROPPED] + G.KidNames(root.groups, 1);
    assert G.DROPPED in G.KidNames(root.groups, 0);
    assert G.DroppedVars(root.vars, 0, keeps) == [v] + G.DroppedVars(root.vars, 1, keeps);
  }
}
