/** The two loops that put "%20" in place of spaces and take it out again. */
module SpaceEncoding {

  predicate CodeAt(s: string, i: nat) { i + 3 <= |s| && s[i] == '%' && s[i + 1] == '2' && s[i + 2] == '0' }

  /** No "%20" anywhere. */
  ghost predicate NoCode(s: string) { forall i: nat :: !CodeAt(s, i) }

  predicate NoSpace(s: string) { forall i :: 0 <= i < |s| ==> s[i] != ' ' }

  /** Every "%20", from left to right, becomes a space. */
  function Removed(s: string): string {
    if s == [] then []
    else if CodeAt(s, 0) then " " + Removed(s[3..]) else [s[0]] + Removed(s[1..])
  }

  /** Every space becomes "%20". */
  function Added(s: string): string {
    if s == [] then [] else (if s[0] == ' ' then "%20" else [s[0]]) + Added(s[1..])
  }

  /** string::find("%20"). */
  method FindCode(s: string) returns (pos: nat)
    ensures pos <= |s| && (pos < |s| ==> CodeAt(s, pos)) && (pos == |s| ==> NoCode(s))
    ensures forall i: nat :: i < pos ==> !CodeAt(s, i)
  {
    pos := 0;
    while pos < |s|
      invariant 0 <= pos <= |s| && forall i: nat :: i < pos ==> !CodeAt(s, i)
    {
      if CodeAt(s, pos) { return; }
      pos := pos + 1;
    }
  }

  method FindSpace(s: string) returns (pos: nat)
    ensures pos <= |s| && (pos < |s| ==> s[pos] == ' ') && NoSpace(s[..pos])
  {
    pos := 0;
    while pos < |s|
      invariant 0 <= pos <= |s| && NoSpace(s[..pos])
    {
      if s[pos] == ' ' { return; }
      assert s[..pos + 1] == s[..pos] + [s[pos]];
      pos := pos + 1;
    }
  }

  /** remove_space_encoding: the search starts over after every replacement. */
  method RemoveSpaceEncoding(s: string) returns (n: string)
    ensures n == Removed(s)
  {
    n := s;
    var pos: nat := FindCode(s);
    while pos < |n|
      invariant pos <= |n| && Removed(n) == Removed(s)
      invariant if pos < |n| then CodeAt(n, pos) && forall i: nat :: i < pos ==> !CodeAt(n, i) else NoCode(n)
      decreases |n|
    {
      RemoveOne(n, pos);
      n := n[..pos] + " " + n[pos + 3..];
      pos := FindCode(n);
    }
    RemovedNothing(n);
  }

  /** add_space_encoding. */
  method AddSpaceEncoding(s: string) returns (n: string)
    ensures n == Added(s)
  {
    n := s;
    var pos: nat := FindSpace(s);
    while pos < |n|
      invariant pos <= |n| && Added(n) == Added(s) && NoSpace(n[..pos]) && (pos < |n| ==> n[pos] == ' ')
      decreases Spaces(n)
    {
      AddOne(n, pos);
      n := n[..pos] + "%20" + n[pos + 1..];
      pos := FindSpace(n);
    }
    assert n[..pos] == n;
    AddedNothing(n);
  }

  function Spaces(s: string): nat { if s == [] then 0 else (if s[0] == ' ' then 1 else 0) + Spaces(s[1..]) }

  lemma {:induction false} RemoveOne(s: string, pos: nat)
    requires CodeAt(s, pos) && forall i: nat :: i < pos ==> !CodeAt(s, i)
    ensures Removed(s[..pos] + " " + s[pos + 3..]) == Removed(s)
    decreases pos
  {
    var r := s[..pos] + " " + s[pos + 3..];
    if pos == 0 {
      assert r[1..] == s[3..] && !CodeAt(r, 0);
    } else {
      forall i: nat | i < pos - 1 ensures !CodeAt(s[1..], i) { assert !CodeAt(s, i + 1); }
      assert CodeAt(s[1..], pos - 1);
      RemoveOne(s[1..], pos - 1);
      assert r[1..] == s[1..][..pos - 1] + " " + s[1..][pos - 1 + 3..];
      assert r[0] == s[0] && (pos > 1 ==> r[1] == s[1]) && (pos > 2 ==> r[2] == s[2]) && r[pos] == ' ';
      assert !CodeAt(s, 0) && !CodeAt(r, 0);
    }
  }

  lemma {:induction false} RemovedNothing(s: string)
    requires NoCode(s)
    ensures Removed(s) == s
  {
    if s != [] {
      assert !CodeAt(s, 0);
      forall i: nat ensures !CodeAt(s[1..], i) { assert !CodeAt(s, i + 1); }
      RemovedNothing(s[1..]);
    }
  }

  lemma {:induction false} AddOne(s: string, pos: nat)
    requires pos < |s| && s[pos] == ' ' && NoSpace(s[..pos])
    ensures var r := s[..pos] + "%20" + s[pos + 1..]; Added(r) == Added(s) && Spaces(r) == Spaces(s) - 1
    decreases pos
  {
    var r := s[..pos] + "%20" + s[pos + 1..];
    if pos == 0 {
      var rest := s[1..];
      assert r == "%20" + rest && r[1..] == "20" + rest && r[1..][1..] == "0" + rest && r[1..][1..][1..] == rest;
      assert Added(r[1..][1..]) == "0" + Added(rest) && Added(r[1..]) == "2" + ("0" + Added(rest));
      assert Spaces(r[1..][1..]) == Spaces(rest) && Spaces(r[1..]) == Spaces(rest);
    } else {
      assert s[..pos][0] == s[0];
      assert s[1..][..pos - 1] == s[..pos][1..];
      AddOne(s[1..], pos - 1);
      assert r[1..] == s[1..][..pos - 1] + "%20" + s[1..][pos..];
    }
  }

  lemma {:induction false} AddedNothing(s: string)
    requires NoSpace(s)
    ensures Added(s) == s
  {
    if s != [] { AddedNothing(s[1..]); }
  }

  /** A replacement cannot create a new "%20". */
  lemma {:induction false} RemovedHasNoCode(s: string)
    ensures NoCode(Removed(s))
  {
    var r := Removed(s);
    if s == [] {
    } else if CodeAt(s, 0) {
      RemovedHasNoCode(s[3..]);
      NoCodeCons(' ', Removed(s[3..]));
    } else {
      RemovedHasNoCode(s[1..]);
      if CodeAt(r, 0) {
        RemovedFirst(s[1..]);
        assert r[1..] == Removed(s[1..]);
        RemovedFirst(s[1..][1..]);
        assert false;
      }
      NoCodeCons(s[0], Removed(s[1..]));
    }
  }

  lemma NoCodeCons(c: char, s: string)
    requires NoCode(s) && !CodeAt([c] + s, 0)
    ensures NoCode([c] + s)
  {
    forall i: nat ensures !CodeAt([c] + s, i) {
      if i > 0 { assert !CodeAt(s, i - 1); }
    }
  }

  lemma RemovedFirst(s: string)
    ensures Removed(s) != [] && Removed(s)[0] != ' ' ==>
      s != [] && Removed(s)[0] == s[0] && Removed(s)[1..] == Removed(s[1..])
  {
  }

  /** Removing the encoding a second time changes nothing. */
  lemma RemovalIdempotent(s: string)
    ensures Removed(Removed(s)) == Removed(s)
  {
    RemovedHasNoCode(s);
    RemovedNothing(Removed(s));
  }

  lemma {:induction false} RoundTripPlain(s: string)
    requires NoCode(s)
    ensures Removed(Added(s)) == s
  {
    if s != [] {
      forall i: nat ensures !CodeAt(s[1..], i) { assert !CodeAt(s, i + 1); }
      RoundTripPlain(s[1..]);
      var rest := Added(s[1..]);
      if s[0] == ' ' {
        assert Added(s)[3..] == rest;
      } else {
        var a := [s[0]] + rest;
        assert a[1..] == rest;
        if CodeAt(a, 0) {
          AddedFirst(s[1..]);
          AddedFirst(s[1..][1..]);
          assert CodeAt(s, 0);
          assert false;
        }
      }
    }
  }

  lemma AddedFirst(s: string)
    ensures Added(s) != [] && Added(s)[0] != '%' ==> s != [] && Added(s)[0] == s[0] && Added(s)[1..] == Added(s[1..])
  {
  }

  /** Adding the encoding and removing it gives back exactly the strings without "%20". */
  lemma RoundTripExact(s: string)
    ensures Removed(Added(s)) == s <==> NoCode(s)
  {
    if NoCode(s) { RoundTripPlain(s); }
    RemovedHasNoCode(Added(s));
  }
}
