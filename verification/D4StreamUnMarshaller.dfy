/** D4StreamUnMarshaller as an object that reads, repairs byte order in place, and the
    deserialize() methods that drive it. */
module D4StreamUnMarshaller {
  import opened Wrappers
  import opened Bytes
  import opened D4Data

  // ---------------------------------------------------------------- byte order

  /** Every element of w bytes reversed by itself. */
  function SwapEach(s: seq<Byte>, w: nat): (r: seq<Byte>)
    requires w > 0
    ensures |r| == |s|
  {
    if |s| < w then s else Reversed(s[..w]) + SwapEach(s[w..], w)
  }

  /** Swapping twice gives back the original. */
  lemma {:induction false} SwapTwice(s: seq<Byte>, w: nat)
    requires w > 0
    ensures SwapEach(SwapEach(s, w), w) == s
    decreases |s|
  {
    if |s| >= w {
      SwapTwice(s[w..], w);
      var r := SwapEach(s, w);
      assert r[..w] == Reversed(s[..w]) && r[w..] == SwapEach(s[w..], w);
      ReversedTwice(s[..w]);
      assert s[..w] + s[w..] == s;
    }
  }

  /** Element k of the swapped block is the reversed element k. */
  lemma {:induction false} SwapAt(s: seq<Byte>, w: nat, k: nat)
    requires w > 0 && (k + 1) * w <= |s|
    ensures 0 <= k * w <= (k + 1) * w <= |s|
    ensures SwapEach(s, w)[k * w..(k + 1) * w] == Reversed(s[k * w..(k + 1) * w])
    decreases k
  {
    var r := SwapEach(s, w);
    assert (k + 1) * w == k * w + w;
    if k == 0 {
      assert r[..w] == Reversed(s[..w]);
    } else {
      assert k * w == (k - 1) * w + w;
      SwapAt(s[w..], w, k - 1);
      assert r[w..] == SwapEach(s[w..], w);
      assert r[k * w..(k + 1) * w] == r[w..][(k - 1) * w..k * w];
      assert s[k * w..(k + 1) * w] == s[w..][(k - 1) * w..k * w];
    }
  }

  lemma {:induction false} SwapSplit(s: seq<Byte>, w: nat, n: nat)
    requires w > 0 && n * w <= |s|
    ensures 0 <= n * w && SwapEach(s, w) == SwapEach(s[..n * w], w) + SwapEach(s[n * w..], w)
    decreases n
  {
    if n == 0 {
      assert s[..0] == [] && s[0..] == s;
      assert [] + SwapEach(s, w) == SwapEach(s, w);
    } else {
      assert n * w == (n - 1) * w + w;
      var m := (n - 1) * w;
      SwapSplit(s[w..], w, n - 1);
      assert s[..n * w][..w] == s[..w] && s[..n * w][w..] == s[w..][..m];
      assert s[w..][m..] == s[n * w..];
      assert Reversed(s[..w]) + (SwapEach(s[w..][..m], w) + SwapEach(s[n * w..], w))
          == (Reversed(s[..w]) + SwapEach(s[w..][..m], w)) + SwapEach(s[n * w..], w);
    }
  }

  /** bswap_16, bswap_32 or bswap_64 on the element at `off`. */
  method SwapAtOffset(vals: array<Byte>, off: nat, w: nat)
    requires off + w <= vals.Length
    modifies vals
    ensures var s := old(vals[..]);
      vals[..] == s[..off] + Reversed(s[off..off + w]) + s[off + w..]
  {
    ghost var s := vals[..];
    var e := vals[off..off + w];
    assert e == s[off..off + w];
    forall k | 0 <= k < w { vals[off + k] := e[w - 1 - k]; }
  }

  /** m_twidle_vector_elements: the swap in place, or an exception for other word sizes. */
  method TwiddleVectorElements(vals: array<Byte>, num: nat, width: nat) returns (ok: bool)
    requires vals.Length == num * width
    modifies vals
    ensures ok <==> width in {2, 4, 8}
    ensures if ok then vals[..] == SwapEach(old(vals[..]), width) else vals[..] == old(vals[..])
  {
    if width !in {2, 4, 8} { return false; }
    SwapElements(vals, num, width);
    return true;
  }

  method SwapNextElement(ghost s: seq<Byte>, vals: array<Byte>, ghost num: nat, width: nat, ghost n: nat, local: nat)
    requires width > 0 && n < num && Block(|s|, num, width) && Twiddled(s, vals[..], width, n, local)
    modifies vals
    ensures Twiddled(s, vals[..], width, n + 1, local + width)
  {
    TwiddleStep(s, vals[..], width, num, n, local);
    hide *;
    SwapAtOffset(vals, local, width);
  }

  predicate Block(length: nat, num: nat, w: nat) { length == num * w }

  /** The counting loop. */
  method SwapElements(vals: array<Byte>, num: nat, width: nat)
    requires width > 0 && Block(vals.Length, num, width)
    modifies vals
    ensures vals[..] == SwapEach(old(vals[..]), width)
  {
    hide *;
    ghost var s := vals[..];
    var left: nat, local: nat := num, 0;
    TwiddleStarts(s, width);
    while left > 0
      invariant 0 <= left <= num && Twiddled(s, vals[..], width, num - left, local)
    {
      SwapNextElement(s, vals, num, width, num - left, local);
      local := local + width;
      left := left - 1;
    }
    TwiddleEnds(s, vals[..], width, num, local);
  }

  /** The first n elements of the block have been swapped, up to the pointer. */
  predicate Twiddled(s: seq<Byte>, now: seq<Byte>, w: nat, n: nat, local: int)
    requires w > 0
  {
    |now| == |s| && local == n * w && 0 <= local <= |s| && now == SwapEach(s[..local], w) + s[local..]
  }

  lemma TwiddleStarts(s: seq<Byte>, w: nat)
    requires w > 0
    ensures Twiddled(s, s, w, 0, 0)
  {
    assert s[..0] == [] && s[0..] == s && [] + s == s;
  }

  lemma TwiddleStep(s: seq<Byte>, now: seq<Byte>, w: nat, num: nat, n: nat, m: int)
    requires w > 0 && n < num && Block(|s|, num, w) && Twiddled(s, now, w, n, m)
    ensures 0 <= m && m + w <= |now| && |now| == |s|
    ensures Twiddled(s, now[..m] + Reversed(now[m..m + w]) + now[m + w..], w, n + 1, m + w)
  {
    RoomForNext(w, num, n);
    SwapNext(s, w, n);
    MiddleSwapped(SwapEach(s[..m], w), s, now, m, w);
  }

  lemma RoomForNext(w: nat, num: nat, n: nat)
    requires n < num
    ensures n * w + w <= num * w && (n + 1) * w == n * w + w && n * w >= 0
  {
    var rest := num - n - 1;
    Products(n + 1, rest, w);
    Products(n, 1, w);
    assert num == (n + 1) + rest && 1 * w == w;
  }

  lemma Products(a: nat, b: nat, w: nat)
    ensures (a + b) * w == a * w + b * w && a * w >= 0 && b * w >= 0
  {
  }

  lemma MiddleSwapped(done: seq<Byte>, s: seq<Byte>, now: seq<Byte>, m: nat, w: nat)
    requires |done| == m && m + w <= |s| && now == done + s[m..]
    ensures |now| == |s|
    ensures now[..m] + Reversed(now[m..m + w]) + now[m + w..] == (done + Reversed(s[m..m + w])) + s[m + w..]
  {
    assert now[..m] == done && now[m..m + w] == s[m..m + w] && now[m + w..] == s[m + w..];
  }

  lemma TwiddleEnds(s: seq<Byte>, now: seq<Byte>, w: nat, n: nat, m: int)
    requires w > 0 && Block(|s|, n, w) && Twiddled(s, now, w, n, m)
    ensures now == SwapEach(s, w)
  {
    assert s[..m] == s && s[m..] == [];
    assert SwapEach(s, w) + [] == SwapEach(s, w);
  }

  lemma SwapNext(s: seq<Byte>, w: nat, n: nat)
    requires w > 0 && (n + 1) * w <= |s|
    ensures var m := n * w;
      0 <= m && (n + 1) * w == m + w
      && SwapEach(s[..m + w], w) == SwapEach(s[..m], w) + Reversed(s[m..m + w])
  {
    Products(n, 1, w);
    var m := n * w;
    var p := s[..m + w];
    SwapSplit(p, w, n);
    SwapOnce(p[m..], w);
    hide *;
    assert p[..m] == s[..m] && p[m..] == s[m..m + w];
  }

  lemma SwapOnce(e: seq<Byte>, w: nat)
    requires |e| == w > 0
    ensures SwapEach(e, w) == Reversed(e)
  {
    assert e[..w] == e && e[w..] == [] && SwapEach(e[w..], w) == [];
    assert Reversed(e) + [] == Reversed(e);
  }

  // ---------------------------------------------------------------- blocks of numbers

  /** The elements of a block. */
  function Elements(s: seq<Byte>, w: nat, n: nat): seq<Recv>
    requires |s| == n * w
    decreases n
  {
    if n == 0 then []
    else
      assert n * w == w + (n - 1) * w;
      [RFixed(w, s[..w])] + Elements(s[w..], w, n - 1)
  }

  /** Reading a block at once and swapping it is reading its elements one by one. */
  lemma {:induction false} BlockIsCopies(w: nat, b: seq<Byte>, n: nat, input: seq<Byte>, big: bool, twiddle: bool)
    requires w > 0
    ensures DecodeCopies(RFixed(w, b), n, input, big, twiddle) ==
      if |input| < n * w then None
      else Some((Elements(if twiddle then SwapEach(input[..n * w], w) else input[..n * w], w, n), input[n * w..]))
    decreases n
  {
    if n == 0 {
      assert input[0..] == input;
    } else {
      assert n * w == w + (n - 1) * w && (n - 1) * w >= 0;
      if |input| >= w {
        var rest := input[w..];
        BlockIsCopies(w, b, n - 1, rest, big, twiddle);
        if |input| >= n * w {
          var s := input[..n * w];
          assert s[..w] == input[..w] && s[w..] == rest[..(n - 1) * w];
          assert rest[(n - 1) * w..] == input[n * w..];
          var t := SwapEach(s, w);
          assert t[..w] == Reversed(s[..w]) && t[w..] == SwapEach(s[w..], w);
        }
      }
    }
  }

  // ---------------------------------------------------------------- the unmarshaller

  class UnMarshaller {
    var input: seq<Byte>
    const big: bool
    const twiddle: bool

    constructor (input: seq<Byte>, big: bool, twiddle: bool)
      ensures this.input == input && this.big == big && this.twiddle == twiddle
    {
      this.input, this.big, this.twiddle := input, big, twiddle;
    }

    /** istream::read; None when the stream is too short, which throws. */
    method ReadBytes(n: nat) returns (r: Option<seq<Byte>>)
      modifies this
      ensures r == if |old(input)| < n then None else Some(old(input)[..n])
      ensures r.Some? ==> input == old(input)[n..]
    {
      if |input| < n { return None; }
      r := Some(input[..n]);
      input := input[n..];
    }

    /** get_byte, get_int16 and so on up to get_float64. */
    method GetNumber(width: nat) returns (r: Option<seq<Byte>>)
      modifies this
      ensures r == if |old(input)| < width then None
                   else Some(if twiddle then Reversed(old(input)[..width]) else old(input)[..width])
      ensures r.Some? ==> input == old(input)[width..]
    {
      r := ReadBytes(width);
      if r.Some? && twiddle { r := Some(Reversed(r.value)); }
    }

    /** get_count. */
    method GetCount() returns (r: Option<int>)
      modifies this
      ensures match ReadCount(old(input), big)
        case None => r == None
        case Some((n, rest)) => r == Some(n) && input == rest
    {
      var b := ReadBytes(8);
      if b.None? { return None; }
      var v := WordValue(b.value, big);
      r := Some(if v < TWO_TO_63 then v else v - 2 * TWO_TO_63);
    }

    /** get_str and get_opaque_dap4; a negative length cannot be allocated and throws. */
    method GetText(o: bool) returns (r: Option<Recv>)
      modifies this
      ensures Result(Decode(RText(o, []), old(input), big, twiddle), r, input)
    {
      var n := GetCount();
      if n.None? || n.value < 0 { return None; }
      var b := ReadBytes(n.value);
      if b.None? { return None; }
      r := Some(RText(o, b.value));
    }

    /** get_vector: one read and one pass of byte order repair. */
    method GetVector(n: nat, width: nat) returns (r: Option<seq<Byte>>)
      requires width in {1, 2, 4, 8}
      modifies this
      ensures r == if |old(input)| < n * width then None
                   else Some(if twiddle then SwapEach(old(input)[..n * width], width) else old(input)[..n * width])
      ensures r.Some? ==> input == old(input)[n * width..]
    {
      r := ReadBytes(n * width);
      if r.None? || !twiddle { return; }
      if width == 1 {
        SwapOnes(r.value);
        return;
      }
      var s := r.value;
      var vals := new Byte[|s|](i requires 0 <= i < |s| => s[i]);
      assert vals[..] == s;
      var ok := TwiddleVectorElements(vals, n, width);
      r := Some(vals[..]);
    }

    // -------------------------------------------------------------- deserialize()

    /** deserialize() of a variable; None stands for an exception. */
    method Deserialize(v: Recv) returns (r: Option<Recv>)
      requires Declared(v)
      modifies this
      ensures Result(Decode(v, old(input), big, twiddle), r, input)
      decreases Extent(v), 0
    {
      match v
      case RFixed(w, _) =>
        var b := GetNumber(w);
        r := if b.None? then None else Some(RFixed(w, b.value));
      case RText(o, _) => r := GetText(o);
      case RVector(n, proto, _) => r := DeserializeVector(n, proto);
      case RStructure(ms) =>
        var ms1 := DeserializeAll(ms);
        r := if ms1.None? then None else Some(RStructure(ms1.value));
      case RSequence(cols, _, rows) => r := DeserializeSequence(cols, rows);
    }

    /** Constructor::deserialize, and one row of a sequence: variable after variable. */
    method DeserializeAll(vs: seq<Recv>) returns (r: Option<seq<Recv>>)
      requires DeclaredAll(vs)
      modifies this
      ensures Result(DecodeAll(vs, old(input), big, twiddle), r, input)
      decreases ExtentAll(vs), |vs| + 1
    {
      hide Decode, Declared, Extent;
      var i, done := 0, [];
      assert vs[0..] == vs;
      MoreNothing(DecodeAll(vs, input, big, twiddle));
      while i < |vs|
        invariant 0 <= i <= |vs| && DeclaredAll(vs[i..]) && ExtentAll(vs[i..]) <= ExtentAll(vs)
        invariant More(done, DecodeAll(vs[i..], input, big, twiddle)) == DecodeAll(vs, old(input), big, twiddle)
      {
        assert vs[i..][0] == vs[i] && vs[i..][1..] == vs[i + 1..];
        var v := Deserialize(vs[i]);
        if v.None? { return None; }
        MoreSnoc(done, v.value, DecodeAll(vs[i + 1..], input, big, twiddle));
        done := done + [v.value];
        i := i + 1;
      }
      assert vs[i..] == [] && done + [] == done;
      r := Some(done);
    }

    /** Vector::deserialize. */
    method DeserializeVector(n: nat, proto: Recv) returns (r: Option<Recv>)
      requires Declared(proto)
      modifies this
      ensures Result(Decode(RVector(n, proto, []), old(input), big, twiddle), r, input)
      decreases Extent(proto), n + 2
    {
      if proto.RFixed? {
        BlockIsCopies(proto.width, proto.bytes, n, input, big, twiddle);
        var b := GetVector(n, proto.width);
        r := if b.None? then None else Some(RVector(n, proto, Elements(b.value, proto.width, n)));
      } else {
        var i, done := 0, [];
        MoreNothing(DecodeCopies(proto, n, input, big, twiddle));
        while i < n
          invariant 0 <= i <= n
          invariant More(done, DecodeCopies(proto, n - i, input, big, twiddle))
                 == DecodeCopies(proto, n, old(input), big, twiddle)
        {
          var v := Deserialize(proto);
          if v.None? { return None; }
          MoreSnoc(done, v.value, DecodeCopies(proto, n - i - 1, input, big, twiddle));
          done := done + [v.value];
          i := i + 1;
        }
        assert done + [] == done;
        r := Some(RVector(n, proto, done));
      }
    }

    /** D4Sequence::deserialize: the column variables are read for each row and copied. */
    method DeserializeSequence(columns: seq<Recv>, rows: seq<RRow>) returns (r: Option<Recv>)
      requires DeclaredAll(columns)
      modifies this
      ensures Result(Decode(RSequence(columns, 0, rows), old(input), big, twiddle), r, input)
      decreases ExtentAll(columns), |columns| + 2
    {
      var n := GetCount();
      if n.None? { return None; }
      var cols, done, i := columns, rows, 0;
      ghost var start := input;
      var count := if n.value < 0 then 0 else n.value;
      while i < count
        invariant 0 <= i <= count && DeclaredAll(cols) && ExtentAll(cols) == ExtentAll(columns) && |cols| == |columns|
        invariant DecodeRows(cols, done, count - i, input, big, twiddle)
          == DecodeRows(columns, rows, count, start, big, twiddle)
      {
        DeclaredStays(cols, input, big, twiddle);
        var row := DeserializeAll(cols);
        if row.None? { return None; }
        cols := row.value;
        done := done + [RRow(cols)];
        i := i + 1;
      }
      r := Some(RSequence(cols, n.value, done));
    }

    /** get_checksum: four bytes, not repaired. */
    method GetChecksum() returns (r: Option<nat>)
      modifies this
      ensures r == if |old(input)| < 4 then None else Some(WordValue(old(input)[..4], big))
      ensures r.Some? ==> input == old(input)[4..]
    {
      var b := ReadBytes(4);
      r := if b.None? then None else Some(WordValue(b.value, big));
    }

    /** The variables of D4Group::deserialize, each with its checksum. */
    method DeserializeVars(vs: seq<Recv>) returns (r: Option<seq<Checked>>)
      requires DeclaredAll(vs)
      modifies this
      ensures Result(DecodeVars(vs, old(input), big, twiddle), r, input)
    {
      var i, done := 0, [];
      VarsLeftStart(vs, input, big, twiddle);
      hide *;
      while i < |vs|
        invariant 0 <= i <= |vs| && VarsLeft(vs, old(input), i, done, input, big, twiddle)
      {
        VarsLeftStep(vs, old(input), i, done, input, big, twiddle);
        ghost var r0 := Decode(vs[i], input, big, twiddle);
        var v := Deserialize(vs[i]);
        ResultIs(r0, v, input);
        if v.None? {
          NoResult(DecodeVars(vs, old(input), big, twiddle), input);
          return None;
        }
        var sum := GetChecksum();
        if sum.None? {
          NoResult(DecodeVars(vs, old(input), big, twiddle), input);
          return None;
        }
        done := done + [Checked(v.value, sum.value)];
        i := i + 1;
      }
      VarsLeftEnd(vs, old(input), done, input, big, twiddle);
      r := Some(done);
    }

    /** D4Group::deserialize: the child groups, then the variables. */
    method DeserializeGroup(g: RGroup) returns (r: Option<CheckedGroup>)
      requires DeclaredGroup(g)
      modifies this
      ensures Result(DecodeGroup(g, old(input), big, twiddle), r, input)
      decreases g
    {
      var gs, i, done := g.groups, 0, [];
      assert gs[0..] == gs;
      MoreNothing(DecodeGroups(gs, input, big, twiddle));
      while i < |gs|
        invariant 0 <= i <= |gs| && DeclaredGroups(gs[i..])
        invariant More(done, DecodeGroups(gs[i..], input, big, twiddle)) == DecodeGroups(gs, old(input), big, twiddle)
      {
        assert gs[i..][0] == gs[i] && gs[i..][1..] == gs[i + 1..];
        var child := DeserializeGroup(gs[i]);
        if child.None? { return None; }
        MoreSnoc(done, child.value, DecodeGroups(gs[i + 1..], input, big, twiddle));
        done := done + [child.value];
        i := i + 1;
      }
      assert gs[i..] == [] && done + [] == done;
      var vars := DeserializeVars(g.vars);
      r := if vars.None? then None else Some(CheckedGroup(done, vars.value));
    }
  }

  /** The loop over the variables of a group with the first i of them read. */
  ghost predicate VarsLeft(vs: seq<Recv>, input0: seq<Byte>, i: nat, done: seq<Checked>, input: seq<Byte>,
                           big: bool, twiddle: bool)
  {
    && i <= |vs| && DeclaredAll(vs[i..])
    && More(done, DecodeVars(vs[i..], input, big, twiddle)) == DecodeVars(vs, input0, big, twiddle)
  }

  lemma VarsLeftStart(vs: seq<Recv>, input: seq<Byte>, big: bool, twiddle: bool)
    requires DeclaredAll(vs)
    ensures VarsLeft(vs, input, 0, [], input, big, twiddle)
  {
    assert vs[0..] == vs;
    MoreNothing(DecodeVars(vs, input, big, twiddle));
  }

  lemma VarsLeftStep(vs: seq<Recv>, input0: seq<Byte>, i: nat, done: seq<Checked>, input: seq<Byte>,
                     big: bool, twiddle: bool)
    requires i < |vs| && VarsLeft(vs, input0, i, done, input, big, twiddle)
    ensures Declared(vs[i])
    ensures match Decode(vs[i], input, big, twiddle)
      case None => DecodeVars(vs, input0, big, twiddle) == None
      case Some((v, rest)) =>
        if |rest| < 4 then DecodeVars(vs, input0, big, twiddle) == None
        else VarsLeft(vs, input0, i + 1, done + [Checked(v, WordValue(rest[..4], big))], rest[4..], big, twiddle)
  {
    hide Decode, Declared, WordValue;
    assert vs[i..][0] == vs[i] && vs[i..][1..] == vs[i + 1..];
    var r := Decode(vs[i], input, big, twiddle);
    if r.Some? && |r.value.1| >= 4 {
      var (v, rest) := r.value;
      MoreSnoc(done, Checked(v, WordValue(rest[..4], big)), DecodeVars(vs[i + 1..], rest[4..], big, twiddle));
    }
  }

  lemma VarsLeftEnd(vs: seq<Recv>, input0: seq<Byte>, done: seq<Checked>, input: seq<Byte>, big: bool, twiddle: bool)
    requires VarsLeft(vs, input0, |vs|, done, input, big, twiddle)
    ensures Result(DecodeVars(vs, input0, big, twiddle), Some(done), input)
  {
    assert vs[|vs|..] == [] && done + [] == done;
  }

  lemma ResultIs<T>(spec: Reading<T>, r: Option<T>, rest: seq<Byte>)
    requires Result(spec, r, rest)
    ensures spec == if r.None? then None else Some((r.value, rest))
  {
  }

  lemma NoResult<T>(spec: Reading<T>, rest: seq<Byte>)
    requires spec == None
    ensures Result(spec, None, rest)
  {
  }

  predicate DeclaredGroup(g: RGroup)
    decreases g, 0
  {
    DeclaredAll(g.vars) && DeclaredGroups(g.groups)
  }

  predicate DeclaredGroups(gs: seq<RGroup>)
    decreases gs, 1
  {
    gs == [] || (DeclaredGroup(gs[0]) && DeclaredGroups(gs[1..]))
  }

  /** What a reading method returns against what the function says. */
  predicate Result<T(==)>(spec: Reading<T>, r: Option<T>, rest: seq<Byte>) {
    match spec
    case None => r == None
    case Some((v, rest1)) => r == Some(v) && rest == rest1
  }

  function More<T>(done: seq<T>, r: Reading<seq<T>>): Reading<seq<T>> {
    match r
    case None => None
    case Some((s, rest)) => Some((done + s, rest))
  }

  lemma MoreNothing<T>(r: Reading<seq<T>>)
    ensures More([], r) == r
  {
    if r.Some? { assert [] + r.value.0 == r.value.0; }
  }

  lemma MoreSnoc<T>(done: seq<T>, v: T, r: Reading<seq<T>>)
    ensures More(done + [v], r) == More(done, More([v], r))
  {
    if r.Some? { assert done + [v] + r.value.0 == done + ([v] + r.value.0); }
  }

  lemma SwapOnes(s: seq<Byte>)
    ensures SwapEach(s, 1) == s
    decreases |s|
  {
    if s != [] {
      SwapOnes(s[1..]);
      assert Reversed(s[..1]) == s[..1] && s[..1] + s[1..] == s;
    }
  }

  /** Numbers have one of the four widths. */
  predicate Declared(v: Recv)
    decreases v, 0
  {
    match v
    case RFixed(w, _) => w in {1, 2, 4, 8}
    case RText(_, _) => true
    case RVector(_, proto, _) => Declared(proto)
    case RStructure(ms) => DeclaredAll(ms)
    case RSequence(cols, _, _) => DeclaredAll(cols)
  }

  predicate DeclaredAll(vs: seq<Recv>)
    decreases vs, 1
  {
    vs == [] || (Declared(vs[0]) && DeclaredAll(vs[1..]))
  }

  lemma {:induction false} DeclaredStays(vs: seq<Recv>, input: seq<Byte>, big: bool, twiddle: bool)
    requires DeclaredAll(vs)
    ensures var r := DecodeAll(vs, input, big, twiddle); r.Some? ==> DeclaredAll(r.value.0)
    decreases ExtentAll(vs), |vs| + 1
  {
    if vs != [] {
      OneDeclaredStays(vs[0], input, big, twiddle);
      var r := Decode(vs[0], input, big, twiddle);
      if r.Some? { DeclaredStays(vs[1..], r.value.1, big, twiddle); }
    }
  }

  lemma {:induction false} OneDeclaredStays(v: Recv, input: seq<Byte>, big: bool, twiddle: bool)
    requires Declared(v)
    ensures var r := Decode(v, input, big, twiddle); r.Some? ==> Declared(r.value.0)
    decreases Extent(v), 0
  {
    match v
    case RStructure(ms) => DeclaredStays(ms, input, big, twiddle);
    case RSequence(cols, _, rows) =>
      var c := ReadCount(input, big);
      if c.Some? {
        var (n, rest) := c.value;
        RowsDeclaredStay(cols, rows, if n < 0 then 0 else n, rest, big, twiddle);
      }
    case _ =>
  }

  lemma {:induction false} RowsDeclaredStay(cols: seq<Recv>, rows: seq<RRow>, n: nat, input: seq<Byte>,
                                            big: bool, twiddle: bool)
    requires DeclaredAll(cols)
    ensures var r := DecodeRows(cols, rows, n, input, big, twiddle); r.Some? ==> DeclaredAll(r.value.0.0)
    decreases ExtentAll(cols), |cols| + 2 + n
  {
    if n > 0 {
      DeclaredStays(cols, input, big, twiddle);
      var r := DecodeAll(cols, input, big, twiddle);
      if r.Some? {
        var (cols1, rest) := r.value;
        RowsDeclaredStay(cols1, rows + [RRow(cols1)], n - 1, rest, big, twiddle);
      }
    }
  }
}
