/** Fully qualified names: how variables and dimensions are named, and how they are found
    again.  A variable is identified by its place in the tree. */
module Names {
  import opened Wrappers
  import opened Text
  import opened DmrTree

  /** A step from a list of variables to one of them, or from an array to its prototype. */
  datatype Step = Member(index: nat) | Proto

  /** The groups to go down, by position, and then the variables. */
  datatype Place = Place(groups: seq<nat>, steps: seq<Step>)

  /** The outcome of a lookup; a leading slash below the root throws. */
  datatype Lookup = At(place: Place) | Absent | Throws

  // ---------------------------------------------------------------- places

  /** The variable at a place below a list of variables. */
  function VarAt(vs: seq<Var>, steps: seq<Step>): Option<Var>
    decreases |steps|, 0
  {
    if steps == [] || steps[0].Proto? || steps[0].index >= |vs| then None
    else Within(vs[steps[0].index], steps[1..])
  }

  function Within(v: Var, steps: seq<Step>): Option<Var>
    decreases |steps|, 1
  {
    if steps == [] then Some(v)
    else if steps[0].Proto? then (if v.dims == [] then None else Within(v.(dims := []), steps[1..]))
    else if v.Ctor? then VarAt(v.members, steps) else None
  }

  function GroupAt(g: Group, path: seq<nat>): Option<Group>
    decreases |path|
  {
    if path == [] then Some(g)
    else if path[0] >= |g.groups| then None else GroupAt(g.groups[path[0]], path[1..])
  }

  /** A place of a variable that is declared there: members only, no prototypes. */
  predicate Declares(vs: seq<Var>, steps: seq<Step>)
    decreases |steps|
  {
    && steps != [] && steps[0].Member? && steps[0].index < |vs|
    && (|steps| > 1 ==> vs[steps[0].index].Ctor? && Declares(vs[steps[0].index].members, steps[1..]))
  }

  // ---------------------------------------------------------------- names

  function Dotted(names: seq<string>): string {
    if names == [] then "" else if |names| == 1 then names[0] else names[0] + "." + Dotted(names[1..])
  }

  function NamesOf(vs: seq<Var>, steps: seq<Step>): seq<string>
    requires Declares(vs, steps)
    decreases |steps|
  {
    var v := vs[steps[0].index];
    [v.name] + if |steps| == 1 then [] else NamesOf(v.members, steps[1..])
  }

  /** D4Group::FQN below the root: the name of every group and a slash. */
  function GroupsFqn(g: Group, path: seq<nat>): string
    requires GroupAt(g, path).Some?
    decreases |path|
  {
    if path == [] then "" else g.groups[path[0]].name + "/" + GroupsFqn(g.groups[path[0]], path[1..])
  }

  /** BaseType::FQN and Constructor::FQN of a variable, an array and its prototype having the
      same name. */
  function VarFqn(root: Group, p: Place): string
    requires GroupAt(root, p.groups).Some? && Declares(GroupAt(root, p.groups).value.vars, p.steps)
  {
    "/" + GroupsFqn(root, p.groups) + Dotted(NamesOf(GroupAt(root, p.groups).value.vars, p.steps))
  }

  // ---------------------------------------------------------------- lookups

  function FirstVar(vs: seq<Var>, name: string): (r: Option<nat>)
    ensures r.Some? ==> r.value < |vs| && vs[r.value].name == name
    ensures r.None? ==> forall v :: v in vs ==> v.name != name
  {
    if vs == [] then None
    else if vs[0].name == name then Some(0)
    else match FirstVar(vs[1..], name) case None => None case Some(i) => Some(i + 1)
  }

  /** Constructor::var with an exact match: the whole name first, then its first part. */
  function VarIn(vs: seq<Var>, name: string): Option<seq<Step>>
    decreases |name|, 0
  {
    var n := Www2Id(name);
    match FirstVar(vs, n)
    case Some(i) => Some([Member(i)])
    case None =>
      var pos := Find(n, '.');
      if pos == |n| then None
      else match VarIn(vs, n[..pos])
        case None => None
        case Some(s) =>
          match VarAt(vs, s)
          case None => None
          case Some(v) =>
            match VarOf(v, n[pos + 1..])
            case None => None
            case Some(t) => Some(s + t)
  }

  /** var() of one variable; an array answers to the name of its prototype itself. */
  function VarOf(v: Var, name: string): Option<seq<Step>>
    decreases |name|, 1
  {
    if v.dims == [] then (if v.Ctor? then VarIn(v.members, name) else None)
    else
      var n := Www2Id(name);
      if n == "" || n == v.name then Some([Proto])
      else if v.Ctor? then VarIn(v.members, n) else None
  }

  function FirstGroup(gs: seq<Group>, name: string): (r: Option<nat>)
    ensures r.Some? ==> r.value < |gs| && gs[r.value].name == name
  {
    if gs == [] then None
    else if gs[0].name == name then Some(0)
    else match FirstGroup(gs[1..], name) case None => None case Some(i) => Some(i + 1)
  }

  /** D4Group::find_var. */
  function FindVar(g: Group, path: string): Lookup
    decreases |path|, 1
  {
    if path == [] || path[0] != '/' then FindVarBelow(g, path)
    else if g.name != "/" then Throws
    else FindVarBelow(g, path[1..])
  }

  function FindVarBelow(g: Group, lpath: string): Lookup
    decreases |lpath|, 0
  {
    var pos := Find(lpath, '/');
    if pos == |lpath| then
      match VarIn(g.vars, lpath) case None => Absent case Some(s) => At(Place([], s))
    else
      match FirstGroup(g.groups, lpath[..pos])
      case None => Absent
      case Some(i) =>
        match FindVar(g.groups[i], lpath[pos + 1..])
        case At(p) => At(Place([i] + p.groups, p.steps))
        case other => other
  }

  // ---------------------------------------------------------------- well-named trees

  predicate Plain(n: string) { n != "" && Free(n, '/') && Free(n, '.') && Free(n, '%') }

  predicate DistinctVars(vs: seq<Var>) {
    forall i, j :: 0 <= i < j < |vs| ==> vs[i].name != vs[j].name
  }

  /** Plain names, different among siblings, at every depth. */
  predicate WellNamedVars(vs: seq<Var>)
    decreases vs, 1
  {
    DistinctVars(vs) && forall i :: 0 <= i < |vs| ==> WellNamedVar(vs[i])
  }

  predicate WellNamedVar(v: Var)
    decreases v, 0
  {
    Plain(v.name) && (v.Ctor? ==> WellNamedVars(v.members))
  }

  predicate WellNamed(g: Group)
    decreases g
  {
    && WellNamedVars(g.vars)
    && (forall i, j :: 0 <= i < j < |g.groups| ==> g.groups[i].name != g.groups[j].name)
    && forall i :: 0 <= i < |g.groups| ==>
         && g.groups[i].name != "" && Free(g.groups[i].name, '/') && Free(g.groups[i].name, '%')
         && WellNamed(g.groups[i])
  }

  /** The last step goes from an array to a member that bears the name of the array. */
  predicate Shadowed(vs: seq<Var>, steps: seq<Step>)
    requires Declares(vs, steps)
    decreases |steps|
  {
    var v := vs[steps[0].index];
    if |steps| == 1 then false
    else if |steps| == 2 then
      assert Declares(v.members, steps[1..]);
      v.dims != [] && v.members[steps[1..][0].index].name == v.name
    else Shadowed(v.members, steps[1..])
  }

  // ---------------------------------------------------------------- a name is found again

  lemma {:induction false} FirstVarFound(vs: seq<Var>, i: nat)
    requires i < |vs| && DistinctVars(vs)
    ensures FirstVar(vs, vs[i].name) == Some(i)
    decreases |vs|
  {
    if i > 0 {
      assert vs[0].name != vs[i].name && vs[1..][i - 1] == vs[i];
      forall j, k | 0 <= j < k < |vs[1..]| ensures vs[1..][j].name != vs[1..][k].name {
        assert vs[j + 1].name != vs[k + 1].name;
      }
      FirstVarFound(vs[1..], i - 1);
    }
  }

  lemma {:induction false} FirstGroupFound(gs: seq<Group>, i: nat)
    requires i < |gs| && forall j, k :: 0 <= j < k < |gs| ==> gs[j].name != gs[k].name
    ensures FirstGroup(gs, gs[i].name) == Some(i)
    decreases |gs|
  {
    if i > 0 {
      assert gs[0].name != gs[i].name && gs[1..][i - 1] == gs[i];
      forall j, k | 0 <= j < k < |gs[1..]| ensures gs[1..][j].name != gs[1..][k].name {
        assert gs[j + 1].name != gs[k + 1].name;
      }
      FirstGroupFound(gs[1..], i - 1);
    }
  }

  predicate AllPlain(names: seq<string>) { forall n :: n in names ==> Plain(n) }

  lemma {:induction false} DottedFree(names: seq<string>)
    requires AllPlain(names)
    ensures Free(Dotted(names), '/') && Free(Dotted(names), '%')
    ensures |names| > 1 ==> !Free(Dotted(names), '.')
    decreases |names|
  {
    if |names| == 1 {
      assert names[0] in names;
    } else if |names| > 1 {
      assert names[0] in names && forall n :: n in names[1..] ==> n in names;
      DottedFree(names[1..]);
      assert Dotted(names)[|names[0]|] == '.';
    }
  }

  lemma {:induction false} NamesPlain(vs: seq<Var>, steps: seq<Step>)
    requires Declares(vs, steps) && WellNamedVars(vs)
    ensures AllPlain(NamesOf(vs, steps)) && |NamesOf(vs, steps)| == |steps|
    decreases |steps|
  {
    var v := vs[steps[0].index];
    assert WellNamedVar(v);
    if |steps| > 1 { NamesPlain(v.members, steps[1..]); }
  }

  /** Where the lookup of a variable's dotted name leads: to the variable, except that a member
      of an array which bears the array's name is mistaken for the prototype. */
  lemma {:induction false} DottedLookup(vs: seq<Var>, steps: seq<Step>)
    requires Declares(vs, steps) && WellNamedVars(vs)
    ensures var r := VarIn(vs, Dotted(NamesOf(vs, steps)));
      r.Some? && (r.value == steps <==> !Shadowed(vs, steps))
    decreases |steps|
  {
    var i := steps[0].index;
    var v := vs[i];
    var names := NamesOf(vs, steps);
    assert WellNamedVar(v);
    NamesPlain(vs, steps);
    DottedFree(names);
    var n := Dotted(names);
    Www2IdPlain(n);
    FirstVarFound(vs, i);
    if |steps| == 1 {
      assert steps == [steps[0]];
    } else {
      var rest := names[1..];
      assert rest == NamesOf(v.members, steps[1..]);
      NamesPlain(v.members, steps[1..]);
      DottedFree(rest);
      var field := Dotted(rest);
      Www2IdPlain(field);
      assert n == v.name + "." + field;
      SplitLookup(vs, i, field);
      hide VarIn, VarOf, Www2Id, Dotted;
      DottedLookup(v.members, steps[1..]);
      Combine(steps, v, field, rest);
    }
  }

  /** A name with a dot in it is looked up part by part. */
  lemma SplitLookup(vs: seq<Var>, i: nat, field: string)
    requires i < |vs| && WellNamedVars(vs) && Free(field, '%')
    ensures VarIn(vs, vs[i].name + "." + field) ==
      match VarOf(vs[i], field) case None => None case Some(t) => Some([Member(i)] + t)
  {
    var v := vs[i];
    var n := v.name + "." + field;
    assert WellNamedVar(v);
    assert n[|v.name|] == '.' && Free(n, '%');
    Www2IdPlain(n);
    Www2IdPlain(v.name);
    FindAppend(v.name, '.', field);
    assert n[..|v.name|] == v.name && n[|v.name| + 1..] == field;
    NotAName(vs, n);
    FirstVarFound(vs, i);
    assert [Member(i)][1..] == [];
    assert VarIn(vs, v.name) == Some([Member(i)]) && VarAt(vs, [Member(i)]) == Some(v);
  }

  lemma NotAName(vs: seq<Var>, n: string)
    requires WellNamedVars(vs) && !Free(n, '.')
    ensures FirstVar(vs, n) == None
  {
    forall i | 0 <= i < |vs| ensures vs[i].name != n { assert WellNamedVar(vs[i]); }
  }

  /** The part of the lookup below the first variable. */
  lemma Combine(steps: seq<Step>, v: Var, field: string, rest: seq<string>)
    requires |steps| > 1 && steps[0].Member? && v.Ctor? && WellNamedVar(v)
    requires Declares(v.members, steps[1..]) && rest == NamesOf(v.members, steps[1..]) && field == Dotted(rest)
    requires Www2Id(field) == field && AllPlain(rest) && (|rest| > 1 ==> !Free(field, '.'))
    requires |rest| == |steps| - 1
    requires var r := VarIn(v.members, field);
      r.Some? && (r.value == steps[1..] <==> !Shadowed(v.members, steps[1..]))
    ensures var t := VarOf(v, field);
      t.Some? && ([steps[0]] + t.value == steps
        <==> if |steps| == 2 then !(v.dims != [] && v.members[steps[1..][0].index].name == v.name)
             else !Shadowed(v.members, steps[1..]))
  {
    hide VarIn, Www2Id, WellNamedVars;
    var t := VarOf(v, field);
    assert rest[0] in rest && steps == [steps[0]] + steps[1..];
    if |rest| == 1 { assert field == rest[0] == v.members[steps[1..][0].index].name; }
    assert field != "" by {
      if |rest| > 1 { assert !Free(field, '.'); }
    }
    if t.Some? {
      assert [steps[0]] + t.value == steps <==> t.value == steps[1..] by {
        assert ([steps[0]] + t.value)[1..] == t.value;
      }
    }
    assert t == Some([Proto]) ==> t.value != steps[1..] by {
      assert steps[1..][0].Member? && [Proto][0].Proto?;
    }
  }

  /** A group's path in a name is followed down to the group. */
  lemma {:induction false} GroupsFollowed(g: Group, path: seq<nat>, last: string)
    requires WellNamed(g) && GroupAt(g, path).Some? && Free(last, '/') && last != ""
    ensures var s := GroupsFqn(g, path) + last;
      s != "" && s[0] != '/'
      && FindVarBelow(g, s) ==
        match VarIn(GroupAt(g, path).value.vars, last)
        case None => Absent
        case Some(t) => At(Place(path, t))
    decreases |path|
  {
    hide *;
    if path == [] {
      LookHere(g, last);
    } else {
      OneDown(g, path, last);
      var c := g.groups[path[0]];
      GroupsFollowed(c, path[1..], last);
      GoDown(g, path[0], GroupsFqn(c, path[1..]) + last);
      assert path == [path[0]] + path[1..];
    }
  }

  lemma LookHere(g: Group, last: string)
    requires Free(last, '/') && last != ""
    ensures GroupAt(g, []) == Some(g) && GroupsFqn(g, []) + last == last && last[0] != '/'
    ensures FindVarBelow(g, last) == match VarIn(g.vars, last) case None => Absent case Some(t) => At(Place([], t))
  {
    hide VarIn;
    FindFree(last, '/');
  }

  lemma OneDown(g: Group, path: seq<nat>, last: string)
    requires WellNamed(g) && GroupAt(g, path).Some? && path != []
    ensures path[0] < |g.groups| && WellNamed(g.groups[path[0]])
    ensures GroupAt(g, path) == GroupAt(g.groups[path[0]], path[1..])
    ensures var c := g.groups[path[0]];
      var rest := GroupsFqn(c, path[1..]) + last;
      GroupsFqn(g, path) + last == c.name + "/" + rest && c.name + "/" + rest != ""
  {
    hide WellNamedVars, GroupsFqn;
    FqnDown(g, path);
    Reassociate(g.groups[path[0]].name, GroupsFqn(g.groups[path[0]], path[1..]), last);
  }

  lemma FqnDown(g: Group, path: seq<nat>)
    requires GroupAt(g, path).Some? && path != []
    ensures path[0] < |g.groups| && GroupAt(g.groups[path[0]], path[1..]).Some?
    ensures GroupsFqn(g, path) == g.groups[path[0]].name + "/" + GroupsFqn(g.groups[path[0]], path[1..])
  {
  }

  lemma Reassociate(n: string, below: string, last: string)
    ensures n + "/" + below + last == n + "/" + (below + last) && n + "/" + (below + last) != ""
  {
  }

  lemma GoDown(g: Group, i: nat, rest: string)
    requires WellNamed(g) && i < |g.groups| && rest != "" && rest[0] != '/'
    ensures var s := g.groups[i].name + "/" + rest;
      s[0] != '/' && FindVarBelow(g, s) ==
        match FindVarBelow(g.groups[i], rest)
        case At(p) => At(Place([i] + p.groups, p.steps))
        case other => other
  {
    hide VarIn, WellNamedVars, Www2Id;
    var c := g.groups[i];
    var s := c.name + "/" + rest;
    FirstGroupFound(g.groups, i);
    FindAppend(c.name, '/', rest);
    assert s[..|c.name|] == c.name && s[|c.name| + 1..] == rest && s[0] == c.name[0];
  }

  /** find_var on the fully qualified name of a variable returns that very variable, at any
      depth of groups and structures, except exactly when the name ends at a member that
      bears the name of the array it is in. */
  lemma FindVarByFqn(root: Group, p: Place)
    requires root.name == "/" && WellNamed(root)
    requires GroupAt(root, p.groups).Some? && Declares(GroupAt(root, p.groups).value.vars, p.steps)
    ensures FindVar(root, VarFqn(root, p)) == At(p)
      <==> !Shadowed(GroupAt(root, p.groups).value.vars, p.steps)
  {
    var vs := GroupAt(root, p.groups).value.vars;
    WellNamedAt(root, p.groups);
    DottedUsable(vs, p.steps);
    DottedLookup(vs, p.steps);
    RootedLookup(root, p.groups, Dotted(NamesOf(vs, p.steps)));
  }

  /** An array of structures "a" with a member "a": the name of the member leads to the
      structure that is the array's prototype. */
  lemma MemberNamedAfterArray(typ: Type)
    ensures var member := Simple(typ, "a", [], [], []);
      var root := Group("/", [], [], [Ctor(false, "a", [member], [Sized(1)], [])], [], []);
      var p := Place([], [Member(0), Member(0)]);
      && root.name == "/" && WellNamed(root) && Declares(root.vars, p.steps) && VarFqn(root, p) == "/a.a"
      && FindVar(root, "/a.a") != At(p)
  {
    hide FindVar, FindVarBelow, VarIn, VarAt, Www2Id, WellNamedVars;
    var member := Simple(typ, "a", [], [], []);
    var v := Ctor(false, "a", [member], [Sized(1)], []);
    var root := Group("/", [], [], [v], [], []);
    var steps := [Member(0), Member(0)];
    assert steps[1..] == [Member(0)] && Declares([member], steps[1..]) && Declares(root.vars, steps);
    OneWellNamed(member);
    OneWellNamed(v);
    assert NamesOf([member], steps[1..]) == ["a"] && NamesOf(root.vars, steps) == ["a", "a"];
    assert ["a", "a"][1..] == ["a"] && Dotted(["a", "a"]) == "a.a";
    assert Shadowed(root.vars, steps);
    FindVarByFqn(root, Place([], steps));
  }

  /** "a" is a plain name. */
  lemma OneWellNamed(v: Var)
    requires v.name == "a" && (v.Ctor? ==> WellNamedVars(v.members))
    ensures WellNamedVars([v])
  {
    assert Www2Id("a") == "a";
  }

  lemma DottedUsable(vs: seq<Var>, steps: seq<Step>)
    requires Declares(vs, steps) && WellNamedVars(vs)
    ensures var last := Dotted(NamesOf(vs, steps)); last != "" && Free(last, '/')
  {
    var names := NamesOf(vs, steps);
    NamesPlain(vs, steps);
    DottedFree(names);
    assert names[0] in names;
    if |names| > 1 { assert !Free(Dotted(names), '.'); }
  }

  lemma RootedLookup(root: Group, path: seq<nat>, last: string)
    requires root.name == "/" && WellNamed(root) && GroupAt(root, path).Some? && Free(last, '/') && last != ""
    ensures FindVar(root, "/" + GroupsFqn(root, path) + last) ==
      match VarIn(GroupAt(root, path).value.vars, last)
      case None => Absent
      case Some(t) => At(Place(path, t))
  {
    hide VarIn, WellNamed, GroupsFqn, GroupAt, FindVarBelow;
    GroupsFollowed(root, path, last);
    var s := "/" + GroupsFqn(root, path) + last;
    assert s[0] == '/' && s[1..] == GroupsFqn(root, path) + last;
  }

  lemma {:induction false} WellNamedAt(g: Group, path: seq<nat>)
    requires WellNamed(g) && GroupAt(g, path).Some?
    ensures WellNamed(GroupAt(g, path).value)
    decreases |path|
  {
    if path != [] { WellNamedAt(g.groups[path[0]], path[1..]); }
  }

  /** A dot behind the name of an array leads to its prototype, behind any other name nowhere. */
  lemma TrailingDot(vs: seq<Var>, i: nat)
    requires i < |vs| && WellNamedVars(vs)
    ensures VarIn(vs, vs[i].name + ".") == if vs[i].dims == [] then None else Some([Member(i), Proto])
  {
    hide VarIn, VarOf, WellNamedVars, WellNamedVar, Www2Id;
    SplitLookup(vs, i, "");
    assert vs[i].name + "." + "" == vs[i].name + ".";
    assert [Member(i)] + [Proto] == [Member(i), Proto];
    WellNamedOne(vs, i);
    EmptyName(vs[i]);
  }

  lemma WellNamedOne(vs: seq<Var>, i: nat)
    requires i < |vs| && WellNamedVars(vs)
    ensures WellNamedVar(vs[i])
  {
  }

  lemma EmptyName(v: Var)
    requires WellNamedVar(v)
    ensures VarOf(v, "") == if v.dims == [] then None else Some([Proto])
  {
    assert Www2Id("") == "" && Find("", '.') == 0;
    if v.dims == [] && v.Ctor? {
      forall j | 0 <= j < |v.members| ensures v.members[j].name != "" { assert WellNamedVar(v.members[j]); }
      assert FirstVar(v.members, "") == None;
    }
  }

  // ---------------------------------------------------------------- paths that throw

  /** The groups of these names, one below the other. */
  function WalkGroups(g: Group, names: seq<string>): Option<Group>
    decreases |names|
  {
    if names == [] then Some(g)
    else match FirstGroup(g.groups, names[0])
      case None => None
      case Some(i) => WalkGroups(g.groups[i], names[1..])
  }

  function Slashed(names: seq<string>): string {
    if names == [] then "" else names[0] + "/" + Slashed(names[1..])
  }

  /** The path goes down groups that are there, and then has a second slash. */
  ghost predicate Breaks(g: Group, path: string, names: seq<string>) {
    && (forall n :: n in names ==> Free(n, '/'))
    && WalkGroups(g, names).Some?
    && Slashed(names + [""]) <= path
  }

  ghost predicate SlashTwice(g: Group, path: string) { exists names :: names != [] && Breaks(g, path, names) }

  lemma BreaksBelow(g: Group, n: string, i: nat, path: string, names: seq<string>)
    requires Free(n, '/') && FirstGroup(g.groups, n) == Some(i)
    ensures Breaks(g, n + "/" + path, [n] + names) <==> Breaks(g.groups[i], path, names)
  {
    var all := [n] + names;
    assert all[0] == n && all[1..] == names && (all + [""])[1..] == names + [""];
    assert Slashed(all + [""]) == n + "/" + Slashed(names + [""]);
    assert forall x :: x in all <==> x == n || x in names;
    var a, b, c := n + "/", Slashed(names + [""]), path;
    assert a + b <= a + c <==> b <= c by {
      if a + b <= a + c {
        assert b == (a + b)[|a|..] && (a + c)[..|a| + |b|][|a|..] == c[..|b|];
      }
      if b <= c { assert (a + c)[..|a| + |b|] == a + c[..|b|]; }
    }
  }

  lemma OneBreak(g: Group, path: string)
    ensures Breaks(g, path, []) <==> path != [] && path[0] == '/'
  {
    assert [] + [""] == [""] && [""][1..] == [] && Slashed([""]) == "" + "/" + "";
  }

  /** The first of the names is what comes before the first slash. */
  lemma FirstBreak(g: Group, path: string, names: seq<string>)
    requires names != [] && Breaks(g, path, names)
    ensures Find(path, '/') == |names[0]| < |path| && path[..|names[0]|] == names[0]
    ensures FirstGroup(g.groups, names[0]).Some?
  {
    hide FirstGroup, Find, Free, Slashed;
    assert names[0] in names;
    SlashedFirst(names);
    BeforeSlash(path, names[0], Slashed(names[1..] + [""]));
  }

  lemma SlashedFirst(names: seq<string>)
    requires names != []
    ensures Slashed(names + [""]) == names[0] + ['/'] + Slashed(names[1..] + [""])
  {
    var all := names + [""];
    assert all[0] == names[0] && all[1..] == names[1..] + [""];
  }

  lemma BeforeSlash(path: string, n: string, more: string)
    requires Free(n, '/') && n + ['/'] + more <= path
    ensures Find(path, '/') == |n| < |path| && path[..|n|] == n
  {
    hide *;
    var rest := path[|n| + 1 + |more|..];
    assert path == n + ['/'] + (more + rest);
    FindAppend(n, '/', more + rest);
  }

  /** How the lookup goes down. */
  lemma BelowStep(g: Group, path: string)
    ensures var pos := Find(path, '/');
      FindVarBelow(g, path) == Throws <==>
        && pos < |path| && FirstGroup(g.groups, path[..pos]).Some?
        && var c, rest := g.groups[FirstGroup(g.groups, path[..pos]).value], path[pos + 1..];
           (rest != [] && rest[0] == '/') || FindVarBelow(c, rest) == Throws
  {
    hide VarIn;
    var pos := Find(path, '/');
    if pos < |path| && FirstGroup(g.groups, path[..pos]).Some? {
      var c, rest := g.groups[FirstGroup(g.groups, path[..pos]).value], path[pos + 1..];
      assert c.name == path[..pos] && (pos == 0 || c.name[0] != '/');
      assert FindVar(c, rest) == Throws <==> (rest != [] && rest[0] == '/') || FindVarBelow(c, rest) == Throws;
    }
  }

  lemma {:induction false} ThrowsBelow(g: Group, path: string)
    ensures FindVarBelow(g, path) == Throws <==> SlashTwice(g, path)
    decreases |path|
  {
    hide *;
    var pos := Find(path, '/');
    BelowStep(g, path);
    if SlashTwice(g, path) {
      var names := BreakOf(g, path);
      FirstBreak(g, path, names);
      assert names == [names[0]] + names[1..];
    }
    if pos < |path| && FirstGroup(g.groups, path[..pos]).Some? {
      var n, i, rest := path[..pos], FirstGroup(g.groups, path[..pos]).value, path[pos + 1..];
      assert path == n + "/" + rest;
      FreeBefore(path);
      OneBreak(g.groups[i], rest);
      ThrowsBelow(g.groups[i], rest);
      BreaksDown(g, n, i, rest);
    }
  }

  lemma BreakOf(g: Group, path: string) returns (names: seq<string>)
    requires SlashTwice(g, path)
    ensures names != [] && Breaks(g, path, names)
  {
    hide Breaks;
    names :| names != [] && Breaks(g, path, names);
  }

  lemma FreeBefore(path: string)
    ensures Free(path[..Find(path, '/')], '/')
  {
  }

  /** Two slashes in a path that goes on below a child. */
  lemma BreaksDown(g: Group, n: string, i: nat, rest: string)
    requires Free(n, '/') && FirstGroup(g.groups, n) == Some(i)
    ensures SlashTwice(g, n + "/" + rest) <==> Breaks(g.groups[i], rest, []) || SlashTwice(g.groups[i], rest)
  {
    var c, path := g.groups[i], n + "/" + rest;
    hide *;
    if SlashTwice(g, path) {
      var names := BreakOf(g, path);
      FirstBreak(g, path, names);
      FindAppend(n, '/', rest);
      assert path == n + ['/'] + rest && path[..|n|] == n;
      assert names == [n] + names[1..];
      BreaksBelow(g, n, i, rest, names[1..]);
      if names[1..] != [] { ASecondSlash(c, rest, names[1..]); }
    }
    if Breaks(c, rest, []) {
      BreaksBelow(g, n, i, rest, []);
      ASecondSlash(g, path, [n] + []);
    }
    if SlashTwice(c, rest) {
      var names := BreakOf(c, rest);
      BreaksBelow(g, n, i, rest, names);
      ASecondSlash(g, path, [n] + names);
    }
  }

  lemma ASecondSlash(g: Group, path: string, names: seq<string>)
    requires names != [] && Breaks(g, path, names)
    ensures SlashTwice(g, path)
  {
    hide Breaks;
  }

  /** A lookup throws exactly for a slash that follows the names of groups that are there and the
      slash behind the last of them; below the root also for one at the start. */
  lemma ThrowsExact(g: Group, path: string)
    ensures FindVar(g, path) == Throws <==>
      if path == [] || path[0] != '/' then SlashTwice(g, path)
      else g.name != "/" || SlashTwice(g, path[1..])
  {
    hide FindVarBelow;
    ThrowsBelow(g, path);
    if path != [] { ThrowsBelow(g, path[1..]); }
  }
}
