/** Whole data sets on the wire: projection, checksums, and the round trip of a group. */
module CodecGroups {
  import opened Bytes
  import opened D4Data
  import opened CodecRoundTrip

  // ---------------------------------------------------------------- projection

  /** Leaving out what is not sent changes neither the stream nor the checksum of a value. */
  lemma {:induction false} EmitProject(d: Data, write: bool, big: bool)
    ensures Emit(Project(d), write, big) == Emit(d, write, big) && Payload(Project(d)) == Payload(d)
    decreases d, 0
  {
    match d
    case Fixed(_) =>
    case Text(_, _) =>
    case Vector(es) => EmitProjectAll(es, write, big);
    case Structure(ms) => EmitProjectSent(ms, write, big);
    case Sequence(rows) => EmitProjectRows(rows, write, big);
  }

  lemma {:induction false} EmitProjectAll(ds: seq<Data>, write: bool, big: bool)
    ensures EmitAll(ProjectAll(ds), write, big) == EmitAll(ds, write, big)
    ensures PayloadAll(ProjectAll(ds)) == PayloadAll(ds)
    decreases ds, 1
  {
    if ds != [] {
      EmitProject(ds[0], write, big);
      EmitProjectAll(ds[1..], write, big);
    }
  }

  lemma {:induction false} EmitProjectRows(rows: seq<Row>, write: bool, big: bool)
    ensures EmitRows(ProjectRows(rows), write, big) == EmitRows(rows, write, big)
    ensures PayloadRows(ProjectRows(rows)) == PayloadRows(rows)
    decreases rows, 2
  {
    if rows != [] {
      EmitProjectAll(rows[0].cells, write, big);
      EmitProjectRows(rows[1..], write, big);
    }
  }

  lemma {:induction false} EmitProjectSent(ms: seq<Member>, write: bool, big: bool)
    ensures EmitSent(ProjectSent(ms), write, big) == EmitSent(ms, write, big)
    ensures PayloadSent(ProjectSent(ms)) == PayloadSent(ms)
    decreases ms, 1
  {
    if ms != [] {
      EmitProjectMember(ms[0], write, big);
      EmitProjectSent(ms[1..], write, big);
      if ms[0].send {
        var p := Member(true, Project(ms[0].data));
        assert ProjectSent(ms) == [p] + ProjectSent(ms[1..]);
        assert EmitMember(p, write, big) == EmitMember(ms[0], write, big) && PayloadMember(p) == PayloadMember(ms[0]);
      } else {
        assert ProjectSent(ms) == ProjectSent(ms[1..]);
        assert EmitMember(ms[0], write, big) == [] && PayloadMember(ms[0]) == [];
      }
    }
  }

  lemma {:induction false} EmitProjectMember(m: Member, write: bool, big: bool)
    ensures Emit(Project(m.data), write, big) == Emit(m.data, write, big)
    ensures Payload(Project(m.data)) == Payload(m.data)
    decreases m, 0
  {
    EmitProject(m.data, write, big);
  }

  lemma {:induction false} EmitProjectVars(vs: seq<Member>, write: bool, big: bool)
    ensures EmitVars(ProjectSent(vs), write, big) == EmitVars(vs, write, big)
    decreases |vs|
  {
    if vs != [] {
      EmitProject(vs[0].data, write, big);
      EmitProjectVars(vs[1..], write, big);
      if vs[0].send {
        assert ProjectSent(vs) == [Member(true, Project(vs[0].data))] + ProjectSent(vs[1..]);
      } else {
        assert ProjectSent(vs) == ProjectSent(vs[1..]);
      }
    }
  }

  // ---------------------------------------------------------------- groups and their flags

  /** The sent top-level variables of a group and its subgroups, in stream order. */
  function SentVars(g: Group): seq<Data>
    decreases g, 0
  {
    SentVarsOf(g.groups) + SentOnly(g.vars)
  }

  function SentVarsOf(gs: seq<Group>): seq<Data>
    decreases gs, 1
  {
    if gs == [] then [] else SentVars(gs[0]) + SentVarsOf(gs[1..])
  }

  function SentOnly(vs: seq<Member>): seq<Data> {
    if vs == [] then [] else (if vs[0].send then [vs[0].data] else []) + SentOnly(vs[1..])
  }

  /** No group that is not sent has a sent variable anywhere in it. */
  predicate Closed(g: Group)
    decreases g, 0
  {
    ClosedAll(g.groups)
  }

  predicate ClosedAll(gs: seq<Group>)
    decreases gs, 1
  {
    gs == []
    || ((if gs[0].send then Closed(gs[0]) else SentVars(gs[0]) == []) && ClosedAll(gs[1..]))
  }

  /** Variables one after the other, each followed by its checksum. */
  function Stream(vs: seq<Data>, write: bool, big: bool): seq<Byte> {
    if vs == [] then [] else EmitVar(vs[0], write, big) + Stream(vs[1..], write, big)
  }

  lemma {:induction false} StreamConcat(a: seq<Data>, b: seq<Data>, write: bool, big: bool)
    ensures Stream(a + b, write, big) == Stream(a, write, big) + Stream(b, write, big)
    decreases |a|
  {
    if a == [] {
      assert a + b == b;
    } else {
      assert (a + b)[0] == a[0] && (a + b)[1..] == a[1..] + b;
      StreamConcat(a[1..], b, write, big);
    }
  }

  lemma {:induction false} VarsStream(vs: seq<Member>, write: bool, big: bool)
    ensures EmitVars(vs, write, big) == Stream(SentOnly(vs), write, big)
    decreases |vs|
  {
    if vs != [] {
      VarsStream(vs[1..], write, big);
      if vs[0].send {
        assert SentOnly(vs) == [vs[0].data] + SentOnly(vs[1..]);
      } else {
        assert SentOnly(vs) == SentOnly(vs[1..]);
      }
    }
  }

  /** The stream of a data set is its sent top-level variables in order, each with a checksum
      right behind it.  The checksum is that of the variable's own values alone, the same
      whether or not the values themselves are written. */
  lemma {:induction false} GroupStream(g: Group, write: bool, big: bool)
    ensures EmitGroup(g, write, big) == Stream(SentVars(g), write, big)
    decreases g, 0
  {
    GroupsStream(g.groups, write, big);
    VarsStream(g.vars, write, big);
    StreamConcat(SentVarsOf(g.groups), SentOnly(g.vars), write, big);
  }

  lemma {:induction false} GroupsStream(gs: seq<Group>, write: bool, big: bool)
    ensures EmitGroups(gs, write, big) == Stream(SentVarsOf(gs), write, big)
    decreases gs, 1
  {
    if gs != [] {
      GroupStream(gs[0], write, big);
      GroupsStream(gs[1..], write, big);
      StreamConcat(SentVars(gs[0]), SentVarsOf(gs[1..]), write, big);
    }
  }

  /** The stream of a data set describes exactly the data set that its constrained DMR
      describes if and only if no group that is left out has a sent variable in it; otherwise
      there is more on the stream than the DMR accounts for. */
  lemma {:induction false} ClosureExact(g: Group, big: bool)
    ensures EmitGroup(ProjectGroup(g), true, big) == EmitGroup(g, true, big) <==> Closed(g)
    ensures |EmitGroup(ProjectGroup(g), true, big)| <= |EmitGroup(g, true, big)|
    ensures !Closed(g) ==> |EmitGroup(ProjectGroup(g), true, big)| < |EmitGroup(g, true, big)|
    decreases g, 0
  {
    ClosureExactAll(g.groups, big);
    EmitProjectVars(g.vars, true, big);
  }

  lemma {:induction false} ClosureExactAll(gs: seq<Group>, big: bool)
    ensures EmitGroups(ProjectGroups(gs), true, big) == EmitGroups(gs, true, big) <==> ClosedAll(gs)
    ensures |EmitGroups(ProjectGroups(gs), true, big)| <= |EmitGroups(gs, true, big)|
    ensures !ClosedAll(gs) ==> |EmitGroups(ProjectGroups(gs), true, big)| < |EmitGroups(gs, true, big)|
    decreases gs, 1
  {
    if gs != [] {
      ClosureExact(gs[0], big);
      ClosureExactAll(gs[1..], big);
      var rest := ProjectGroups(gs[1..]);
      if gs[0].send {
        assert ProjectGroups(gs) == [ProjectGroup(gs[0])] + rest;
        assert EmitGroups(ProjectGroups(gs), true, big)
          == EmitGroup(ProjectGroup(gs[0]), true, big) + EmitGroups(rest, true, big);
      } else {
        assert ProjectGroups(gs) == rest;
        GroupStream(gs[0], true, big);
      }
    }
  }

  // ---------------------------------------------------------------- the round trip

  predicate FitsGroup(g: Group, r: RGroup)
    decreases g, 0
  {
    FitsGroups(g.groups, r.groups) && FitsSent(g.vars, r.vars)
  }

  /** Only the sent groups have a receiving group. */
  predicate FitsGroups(gs: seq<Group>, rs: seq<RGroup>)
    decreases gs, 1
  {
    if gs == [] then rs == []
    else if gs[0].send then rs != [] && FitsGroup(gs[0], rs[0]) && FitsGroups(gs[1..], rs[1..])
    else FitsGroups(gs[1..], rs)
  }

  predicate FreshGroup(r: RGroup)
    decreases r, 0
  {
    FreshAll(r.vars) && FreshGroups(r.groups)
  }

  predicate FreshGroups(rs: seq<RGroup>)
    decreases rs, 1
  {
    rs == [] || (FreshGroup(rs[0]) && FreshGroups(rs[1..]))
  }

  predicate CountsAgreeGroup(g: Group, big: bool, big2: bool) {
    forall d :: d in SentVars(g) ==> CountsAgree(d, big, big2)
  }

  /** A data set as values with checksums. */
  datatype Arrived = Arrived(groups: seq<Arrived>, vars: seq<(Data, nat)>)

  function Values(g: CheckedGroup): Arrived
    decreases g, 0
  {
    Arrived(ValuesOf(g.groups), VarValues(g.vars))
  }

  function ValuesOf(gs: seq<CheckedGroup>): seq<Arrived>
    decreases gs, 1
  {
    if gs == [] then [] else [Values(gs[0])] + ValuesOf(gs[1..])
  }

  function VarValues(cs: seq<Checked>): seq<(Data, nat)> {
    if cs == [] then [] else [(Value(cs[0].variable), cs[0].checksum)] + VarValues(cs[1..])
  }

  /** What should arrive: the sent groups with their sent variables, each with the checksum of
      its values as the reader's byte order shows it. */
  function Expected(g: Group, big: bool, big2: bool): Arrived
    decreases g, 0
  {
    Arrived(ExpectedOf(g.groups, big, big2), ExpectedVars(g.vars, big, big2))
  }

  function ExpectedOf(gs: seq<Group>, big: bool, big2: bool): seq<Arrived>
    decreases gs, 1
  {
    if gs == [] then []
    else (if gs[0].send then [Expected(gs[0], big, big2)] else []) + ExpectedOf(gs[1..], big, big2)
  }

  function ExpectedVars(vs: seq<Member>, big: bool, big2: bool): seq<(Data, nat)> {
    if vs == [] then []
    else (if vs[0].send
          then [(Arrives(vs[0].data, big != big2),
                 WordValue(ChecksumBytes(Checksum(Payload(vs[0].data)), big), big2))]
          else [])
         + ExpectedVars(vs[1..], big, big2)
  }

  lemma {:induction false} VarsRead(vs: seq<Member>, rs: seq<Recv>, rest: seq<Byte>, big: bool, big2: bool)
    requires FitsSent(vs, rs) && FreshAll(rs)
    requires forall d :: d in SentOnly(vs) ==> big == big2 || CountsAgree(d, big, big2)
    ensures var r := DecodeVars(rs, EmitVars(vs, true, big) + rest, big2, big != big2);
      r.Some? && r.value.1 == rest && VarValues(r.value.0) == ExpectedVars(vs, big, big2)
    decreases |vs|
  {
    if vs != [] {
      forall d | d in SentOnly(vs[1..]) ensures d in SentOnly(vs) {}
      var more := EmitVars(vs[1..], true, big);
      if vs[0].send {
        var d := vs[0].data;
        assert SentOnly(vs)[0] == d;
        VarRead(d, rs[0], more + rest, big, big2);
        Assoc(EmitVar(d, true, big), more, rest);
        VarsRead(vs[1..], rs[1..], rest, big, big2);
      } else {
        assert EmitVars(vs, true, big) == more;
        VarsRead(vs[1..], rs, rest, big, big2);
      }
    }
  }

  /** One variable and its checksum. */
  lemma VarRead(d: Data, v: Recv, rest: seq<Byte>, big: bool, big2: bool)
    requires Fits(d, v) && Fresh(v) && (big == big2 || CountsAgree(d, big, big2))
    ensures var sum := ChecksumBytes(Checksum(Payload(d)), big);
      var r := Decode(v, EmitVar(d, true, big) + rest, big2, big != big2);
      && r.Some? && Value(r.value.0) == Arrives(d, big != big2)
      && |r.value.1| >= 4 && r.value.1[..4] == sum && r.value.1[4..] == rest
  {
    var sum := ChecksumBytes(Checksum(Payload(d)), big);
    Reads(d, v, sum + rest, big, big2);
    Assoc(Emit(d, true, big), sum, rest);
    assert (sum + rest)[..4] == sum && (sum + rest)[4..] == rest;
  }

  /** The round trip of a data set: a fresh receiver that was built from the constrained DMR
      of a closed data set gets exactly the sent values and checksums, and stops exactly at
      the end of what was sent. */
  lemma {:induction false} GroupRoundTrip(g: Group, r: RGroup, rest: seq<Byte>, big: bool, big2: bool)
    requires FitsGroup(g, r) && FreshGroup(r) && Closed(g)
    requires big == big2 || CountsAgreeGroup(g, big, big2)
    ensures var q := DecodeGroup(r, EmitGroup(g, true, big) + rest, big2, big != big2);
      q.Some? && q.value.1 == rest && Values(q.value.0) == Expected(g, big, big2)
    decreases g, 0
  {
    Assoc(EmitGroups(g.groups, true, big), EmitVars(g.vars, true, big), rest);
    forall d | d in SentVarsOf(g.groups) || d in SentOnly(g.vars) ensures d in SentVars(g) {}
    GroupsRoundTrip(g.groups, r.groups, EmitVars(g.vars, true, big) + rest, big, big2);
    VarsRead(g.vars, r.vars, rest, big, big2);
  }

  lemma {:induction false} GroupsRoundTrip(gs: seq<Group>, rs: seq<RGroup>, rest: seq<Byte>, big: bool, big2: bool)
    requires FitsGroups(gs, rs) && FreshGroups(rs) && ClosedAll(gs)
    requires forall d :: d in SentVarsOf(gs) ==> big == big2 || CountsAgree(d, big, big2)
    ensures var q := DecodeGroups(rs, EmitGroups(gs, true, big) + rest, big2, big != big2);
      q.Some? && q.value.1 == rest && ValuesOf(q.value.0) == ExpectedOf(gs, big, big2)
    decreases gs, 1
  {
    if gs != [] {
      var more := EmitGroups(gs[1..], true, big);
      Assoc(EmitGroup(gs[0], true, big), more, rest);
      forall d | d in SentVars(gs[0]) || d in SentVarsOf(gs[1..]) ensures d in SentVarsOf(gs) {}
      if gs[0].send {
        GroupRoundTrip(gs[0], rs[0], more + rest, big, big2);
        GroupsRoundTrip(gs[1..], rs[1..], rest, big, big2);
      } else {
        GroupStream(gs[0], true, big);
        assert EmitGroups(gs, true, big) == more;
        GroupsRoundTrip(gs[1..], rs, rest, big, big2);
      }
    }
  }
}
