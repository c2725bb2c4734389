/** The shape of an Array: constraints, length, and printing in row-major order. */
module ArrayShape {

  // ---------------------------------------------------------------- int arithmetic

  const TWO_TO_31: int := 0x8000_0000
  const TWO_TO_32: int := 0x1_0000_0000

  /** A 32-bit int after wrap-around. */
  function Int32(n: int): int { (n + TWO_TO_31) % TWO_TO_32 - TWO_TO_31 }

  lemma Int32Fits(n: int)
    ensures Int32(n) == n <==> -TWO_TO_31 <= n < TWO_TO_31
    ensures -TWO_TO_31 <= Int32(n) < TWO_TO_31
  {
  }

  lemma Int32Same(a: int, b: int, k: int)
    requires a == b + k * TWO_TO_32
    ensures Int32(a) == Int32(b)
  {
    var x := b + TWO_TO_31;
    assert a + TWO_TO_31 == x + k * TWO_TO_32;
    var q := x / TWO_TO_32;
    assert x == q * TWO_TO_32 + x % TWO_TO_32;
    assert a + TWO_TO_31 == (q + k) * TWO_TO_32 + x % TWO_TO_32;
    ModUnique(a + TWO_TO_31, q + k, x % TWO_TO_32);
  }

  lemma ModUnique(a: int, q: int, r: int)
    requires a == q * TWO_TO_32 + r && 0 <= r < TWO_TO_32
    ensures a % TWO_TO_32 == r
  {
  }

  /** Multiplying in wrapped arithmetic is multiplying and then wrapping. */
  lemma Int32Times(a: int, b: int)
    ensures Int32(Int32(a) * b) == Int32(a * b)
  {
    var k := (a + TWO_TO_31) / TWO_TO_32;
    assert Int32(a) == a - k * TWO_TO_32;
    assert Int32(a) * b == a * b + (0 - k * b) * TWO_TO_32 by {
      assert (a - k * TWO_TO_32) * b == a * b - k * TWO_TO_32 * b;
      assert k * TWO_TO_32 * b == k * b * TWO_TO_32;
    }
    Int32Same(Int32(a) * b, a * b, 0 - k * b);
  }

  /** Division of ints truncates toward zero. */
  function Quotient(a: int, b: int): int
    requires b > 0
  {
    if a >= 0 then a / b else -((-a) / b)
  }

  // ---------------------------------------------------------------- dimensions

  /** An int that is not negative. */
  type Extent = n: int | 0 <= n < TWO_TO_31

  datatype Dimension = Dimension(size: Extent, start: int, stop: int, stride: int, cSize: int)

  function NewDim(size: Extent): Dimension { Dimension(size, 0, size - 1, 1, size) }

  /** How many of the indices start, start + stride, ... do not go beyond stop. */
  function Count(start: int, stop: int, stride: int): nat
    requires stride > 0
    decreases if start <= stop then stop - start + 1 else 0
  {
    if start > stop then 0 else 1 + Count(start + stride, stop, stride)
  }

  lemma {:induction false} CountIs(start: int, stop: int, stride: int)
    requires stride > 0 && start <= stop
    ensures Count(start, stop, stride) == (stop - start) / stride + 1
    decreases stop - start
  {
    var n := stop - start;
    if n < stride {
      assert n / stride == 0;
    } else {
      CountIs(start + stride, stop, stride);
      DivStep(n, stride);
    }
  }

  lemma DivStep(n: int, d: int)
    requires d > 0
    ensures n / d == (n - d) / d + 1
  {
    var q := n / d;
    assert n == q * d + n % d;
    assert n - d == (q - 1) * d + n % d;
    DivUnique(n - d, q - 1, n % d, d);
  }

  lemma DivUnique(a: int, q: int, r: int, d: int)
    requires d > 0 && a == q * d + r && 0 <= r < d
    ensures a / d == q
  {
    var p, s := a / d, a % d;
    assert a == p * d + s;
    Multiple(q - p, d);
    Multiple(p - q, d);
    assert (q - p) * d == s - r && (p - q) * d == r - s;
  }

  lemma Multiple(k: int, d: int)
    requires d > 0
    ensures k > 0 ==> k * d >= d
  {
    if k > 1 { Multiple(k - 1, d); }
  }

  /** The constrained size that add_constraint computes is the number of selected indices when
      the selection is not empty; when it is empty the formula is right only if the stop lies
      at least one and less than two strides below the start. */
  lemma CountExact(start: int, stop: int, stride: int)
    requires stride > 0
    ensures Quotient(stop - start, stride) + 1 == Count(start, stop, stride)
      <==> start <= stop || stride <= start - stop < 2 * stride
  {
    var n := start - stop;
    if start <= stop {
      CountIs(start, stop, stride);
    } else if n < stride {
      DivUnique(n, 0, n, stride);
    } else if n < 2 * stride {
      DivUnique(n, 1, n - stride, stride);
    } else {
      DivStep(n, stride);
      DivStep(n - stride, stride);
      assert (n - stride - stride) / stride >= 0;
    }
  }

  /** The tests of add_constraint. */
  predicate Accepts(d: Dimension, start: int, stride: int, stop: int) {
    start < d.size && stop < d.size && 0 < stride <= d.size && Quotient(stop - start, stride) + 1 <= d.size
  }

  /** A constraint is accepted exactly when the stride is in 1..size, both bounds are below the
      size, and no more indices are selected than there are; for a start that is not negative
      the last always holds. */
  lemma AcceptsExact(d: Dimension, start: int, stride: int, stop: int)
    ensures Accepts(d, start, stride, stop) <==>
      1 <= stride <= d.size && start < d.size && stop < d.size && Count(start, stop, stride) <= d.size
    ensures 1 <= stride <= d.size && 0 <= start && stop < d.size ==> Count(start, stop, stride) <= d.size
  {
    if 1 <= stride <= d.size {
      var n := stop - start;
      if start <= stop {
        CountIs(start, stop, stride);
        QuotientBelow(n, stride);
      } else {
        QuotientBelow(-n, stride);
      }
    }
  }

  lemma QuotientBelow(n: int, d: int)
    requires n >= 0 && d > 0
    ensures 0 <= n / d <= n
  {
    var q := n / d;
    assert n == q * d + n % d;
    if q < 0 { Multiple(-q, d); }
    if q > 0 { AtLeast(q, d); }
  }

  lemma AtLeast(q: int, d: int)
    requires q > 0 && d > 0
    ensures q * d >= q
  {
    if q > 1 { AtLeast(q - 1, d); }
  }

  /** The dimension with a constraint that was accepted. */
  function Constrained(d: Dimension, start: int, stride: int, stop: int): Dimension
    requires stride > 0
  {
    Dimension(d.size, start, stop, stride, Quotient(stop - start, stride) + 1)
  }

  /** -1 stands for the last index. */
  function Last(d: Dimension, stop: int): int { if stop == -1 then d.size - 1 else stop }

  /** The constrained size is the one that add_constraint computes. */
  predicate Computed(d: Dimension) { d.stride > 0 && d.cSize == Quotient(d.stop - d.start, d.stride) + 1 }

  /** The constrained size is the number of selected indices. */
  predicate Counted(d: Dimension) { d.stride > 0 && d.cSize == Count(d.start, d.stop, d.stride) }

  /** A selection that the formula counts. */
  predicate Selects(d: Dimension) { d.start <= d.stop || d.stride <= d.start - d.stop < 2 * d.stride }

  lemma ComputedCounts(d: Dimension)
    requires Computed(d)
    ensures Counted(d) <==> Selects(d)
  {
    CountExact(d.start, d.stop, d.stride);
  }

  /** The k-th selected index. */
  function Selected(d: Dimension, k: nat): int { d.start + k * d.stride }

  /** Every selected index is one of the dimension, and later ones are larger. */
  predicate Inside(d: Dimension) {
    && (forall k :: 0 <= k < d.cSize ==> 0 <= Selected(d, k) < d.size)
    && forall j, k :: 0 <= j < k < d.cSize ==> Selected(d, j) < Selected(d, k)
  }

  /** Bounds within the dimension and a selection that the formula counts. */
  predicate Bounded(d: Dimension) { Computed(d) && Selects(d) && 0 <= d.start && d.stop < d.size }

  lemma BoundedInside(d: Dimension)
    requires Bounded(d)
    ensures Inside(d)
  {
    assert d.stride > 0;
    hide Computed, Selects;
    forall k | 0 <= k < d.cSize ensures 0 <= Selected(d, k) < d.size { IndexInside(d, k); }
    forall j, k | 0 <= j < k < d.cSize ensures Selected(d, j) < Selected(d, k) { LaterLarger(d, j, k); }
  }

  lemma IndexInside(d: Dimension, k: nat)
    requires Bounded(d) && k < d.cSize
    ensures 0 <= Selected(d, k) < d.size
  {
    var n, q := d.stop - d.start, Quotient(d.stop - d.start, d.stride);
    if d.start <= d.stop {
      assert n == q * d.stride + n % d.stride;
      Scaled(k, q, d.stride);
    } else {
      DivUnique(-n, 1, -n - d.stride, d.stride);
    }
  }

  lemma Scaled(a: int, b: int, d: int)
    requires 0 <= a <= b && d > 0
    ensures 0 <= a * d <= b * d
  {
    if a > 0 { Multiple(a, d); }
    if b > a { Multiple(b - a, d); }
    assert b * d == a * d + (b - a) * d;
  }

  lemma LaterLarger(d: Dimension, j: nat, k: nat)
    requires d.stride > 0 && j < k
    ensures Selected(d, j) < Selected(d, k)
  {
    Multiple(k - j, d.stride);
    assert k * d.stride == j * d.stride + (k - j) * d.stride;
  }

  /** Every index of the dimension is selected. */
  predicate Whole(d: Dimension) { d.cSize == d.size && forall k :: 0 <= k < d.size ==> Selected(d, k) == k }

  lemma WholeDim(size: Extent)
    ensures Computed(NewDim(size)) && Selects(NewDim(size))
    ensures NewDim(size).size == size && Whole(NewDim(size))
  {
  }

  function Product(dims: seq<Dimension>): int {
    if dims == [] then 1 else Product(dims[..|dims| - 1]) * dims[|dims| - 1].cSize
  }

  // ---------------------------------------------------------------- edits

  datatype Edit =
    | Append(size: Extent)
    | Prepend(size: Extent)
    | Reset
    | Constrain(i: nat, start: int, stride: int, stop: int)

  /** The dimensions after one call; a constraint that throws changes nothing. */
  function Edited(dims: seq<Dimension>, e: Edit): seq<Dimension> {
    match e
    case Append(n) => dims + [NewDim(n)]
    case Prepend(n) => [NewDim(n)] + dims
    case Reset => seq(|dims|, j requires 0 <= j < |dims| => NewDim(dims[j].size))
    case Constrain(i, start, stride, stop) =>
      if i < |dims| && Accepts(dims[i], start, stride, Last(dims[i], stop))
      then dims[i := Constrained(dims[i], start, stride, Last(dims[i], stop))] else dims
  }

  function EditedAll(dims: seq<Dimension>, es: seq<Edit>): seq<Dimension>
    decreases |es|
  {
    if es == [] then dims else EditedAll(Edited(dims, es[0]), es[1..])
  }

  /** A constraint that is refused, or whose selection the formula counts. */
  predicate Sound(dims: seq<Dimension>, e: Edit) {
    match e
    case Constrain(i, start, stride, stop) =>
      i < |dims| && Accepts(dims[i], start, stride, Last(dims[i], stop))
      ==> Selects(Constrained(dims[i], start, stride, Last(dims[i], stop)))
    case _ => true
  }

  predicate SoundRun(dims: seq<Dimension>, es: seq<Edit>)
    decreases |es|
  {
    es == [] || (Sound(dims, es[0]) && SoundRun(Edited(dims, es[0]), es[1..]))
  }

  predicate AllComputed(dims: seq<Dimension>) { forall i :: 0 <= i < |dims| ==> Computed(dims[i]) }

  predicate AllSelect(dims: seq<Dimension>) { forall i :: 0 <= i < |dims| ==> Selects(dims[i]) }

  lemma EditKeeps(dims: seq<Dimension>, e: Edit)
    requires AllComputed(dims)
    ensures AllComputed(Edited(dims, e))
    ensures AllSelect(dims) ==> (AllSelect(Edited(dims, e)) <==> Sound(dims, e))
  {
    match e
    case Append(n) => WholeDim(n);
    case Prepend(n) => WholeDim(n);
    case Reset => forall j | 0 <= j < |dims| ensures Computed(NewDim(dims[j].size)) && Selects(NewDim(dims[j].size)) {
      WholeDim(dims[j].size);
    }
    case Constrain(i, start, stride, stop) =>
      var done := Edited(dims, e);
      if done != dims { assert done[i] == Constrained(dims[i], start, stride, Last(dims[i], stop)); }
  }

  /** Constraints whose selections the formula counts keep every size a count; one that it does
      not count makes a size wrong, at least until the next edit. */
  lemma {:induction false} RunKeeps(dims: seq<Dimension>, es: seq<Edit>)
    requires AllComputed(dims)
    ensures AllComputed(EditedAll(dims, es))
    ensures AllSelect(dims) && SoundRun(dims, es) ==> AllSelect(EditedAll(dims, es))
    decreases |es|
  {
    if es != [] {
      EditKeeps(dims, es[0]);
      RunKeeps(Edited(dims, es[0]), es[1..]);
    }
  }

  predicate AllBounded(dims: seq<Dimension>) { forall i :: 0 <= i < |dims| ==> Bounded(dims[i]) }

  predicate AllInside(dims: seq<Dimension>) { forall i :: 0 <= i < |dims| ==> Inside(dims[i]) }

  /** No constraint starts below zero. */
  predicate StartsValid(es: seq<Edit>) { forall e :: e in es && e.Constrain? ==> e.start >= 0 }

  lemma EditBounded(dims: seq<Dimension>, e: Edit)
    requires AllBounded(dims) && Sound(dims, e) && (e.Constrain? ==> e.start >= 0)
    ensures AllBounded(Edited(dims, e))
  {
    hide Computed, Selects;
    EditKeeps(dims, e);
    var done := Edited(dims, e);
    forall i | 0 <= i < |done| ensures Bounded(done[i]) {
      assert Computed(done[i]) && Selects(done[i]);
    }
  }

  /** Whatever is called in whatever order, as long as no constraint starts below zero and the
      formula counts each that is accepted, every selected index is one of its dimension. */
  lemma {:induction false} RunInside(dims: seq<Dimension>, es: seq<Edit>)
    requires AllBounded(dims) && SoundRun(dims, es) && StartsValid(es)
    ensures AllBounded(EditedAll(dims, es)) && AllInside(EditedAll(dims, es))
    decreases |es|
  {
    hide Edited, Bounded, Inside, Sound;
    if es == [] {
      forall i | 0 <= i < |dims| ensures Inside(dims[i]) { BoundedInside(dims[i]); }
    } else {
      assert es[0] in es;
      EditBounded(dims, es[0]);
      RunInside(Edited(dims, es[0]), es[1..]);
    }
  }

  // ---------------------------------------------------------------- the object

  class Shape {
    var dims: seq<Dimension>
    var length: int

    /** Every constrained size is computed by the formula; the length is their product as an
        int, or -1 when there are no dimensions. */
    ghost predicate Made()
      reads this
    {
      AllComputed(dims) && length == if dims == [] then -1 else Int32(Product(dims))
    }

    /** Moreover, every constrained size counts the selected indices. */
    ghost predicate Valid()
      reads this
    {
      Made() && forall i :: 0 <= i < |dims| ==> Counted(dims[i])
    }

    lemma ValidExact()
      requires Made()
      ensures Valid() <==> AllSelect(dims)
    {
      forall i | 0 <= i < |dims| ensures Counted(dims[i]) <==> Selects(dims[i]) {
        ComputedCounts(dims[i]);
      }
    }

    /** An array without dimensions. */
    constructor ()
      ensures Valid() && dims == []
    {
      dims, length := [], -1;
    }

    /** update_length. */
    method UpdateLength()
      modifies `length
      ensures length == Int32(Product(dims))
    {
      length := 1;
      var i := 0;
      Int32Fits(1);
      assert dims[..0] == [];
      while i < |dims|
        invariant 0 <= i <= |dims| && length == Int32(Product(dims[..i]))
      {
        assert dims[..i + 1][..i] == dims[..i];
        Int32Times(Product(dims[..i]), dims[i].cSize);
        length := Int32(length * dims[i].cSize);
        i := i + 1;
      }
      assert dims[..i] == dims;
    }

    method AppendDim(size: Extent)
      requires Made()
      modifies this
      ensures Made() && dims == Edited(old(dims), Append(size)) && (old(Valid()) ==> Valid())
      ensures |dims| == |old(dims)| + 1 && dims[|old(dims)|].size == size && Whole(dims[|old(dims)|])
    {
      WholeDim(size);
      EditKeeps(dims, Append(size));
      ValidExact();
      dims := dims + [NewDim(size)];
      UpdateLength();
      ValidExact();
    }

    method PrependDim(size: Extent)
      requires Made()
      modifies this
      ensures Made() && dims == Edited(old(dims), Prepend(size)) && (old(Valid()) ==> Valid())
      ensures |dims| == |old(dims)| + 1 && dims[0].size == size && Whole(dims[0])
    {
      WholeDim(size);
      EditKeeps(dims, Prepend(size));
      ValidExact();
      dims := [NewDim(size)] + dims;
      UpdateLength();
      ValidExact();
    }

    /** reset_constraint, after which the sizes are counts whatever they were before. */
    method ResetConstraint()
      requires Made()
      modifies this
      ensures Valid() && dims == Edited(old(dims), Reset)
      ensures |dims| == |old(dims)|
      ensures forall i :: 0 <= i < |dims| ==> dims[i].size == old(dims)[i].size && Whole(dims[i])
    {
      hide Whole, Product, Int32, Computed, Selects, AllComputed;
      length := -1;
      var i := 0;
      while i < |dims|
        invariant 0 <= i <= |dims| == |old(dims)|
        invariant forall j :: 0 <= j < i ==> dims[j] == NewDim(old(dims)[j].size)
        invariant forall j :: i <= j < |dims| ==> dims[j] == old(dims)[j]
        invariant length == if i == 0 then -1 else Int32(Product(dims))
      {
        dims := dims[i := NewDim(dims[i].size)];
        UpdateLength();
        i := i + 1;
      }
      assert dims == Edited(old(dims), Reset);
      EditKeeps(old(dims), Reset);
      forall j | 0 <= j < |dims| ensures Selects(dims[j]) && Whole(dims[j]) { WholeDim(old(dims)[j].size); }
      ValidExact();
    }

    /** add_constraint; `ok` is false when it throws, and -1 stands for the last index.  Sizes
        stay counts exactly when the formula counts the selection. */
    method AddConstraint(i: nat, start: int, stride: int, stop: int) returns (ok: bool)
      requires Made() && i < |dims|
      modifies this
      ensures var size := old(dims)[i].size; var last := if stop == -1 then size - 1 else stop;
        && |dims| == |old(dims)|
        && (ok <==> 1 <= stride <= size && start < size && last < size && Count(start, last, stride) <= size)
        && (start >= 0 ==> (ok <==> 1 <= stride <= size && start < size && last < size))
        && (ok ==> && dims[i].size == size && dims[i].start == start && dims[i].stop == last
                   && dims[i].stride == stride)
      ensures Made() && dims == Edited(old(dims), Constrain(i, start, stride, stop))
      ensures !ok ==> length == old(length)
      ensures old(Valid()) ==> (Valid() <==> Sound(old(dims), Constrain(i, start, stride, stop)))
    {
      EditKeeps(dims, Constrain(i, start, stride, stop));
      ValidExact();
      AcceptsExact(dims[i], start, stride, Last(dims[i], stop));
      hide Count, Quotient, Product, Int32, Computed, Counted, Selects, AllComputed, AllSelect;
      var last := if stop == -1 then dims[i].size - 1 else stop;
      var d := dims[i];
      if start >= d.size || last >= d.size || stride > d.size || stride <= 0 { return false; }
      if Quotient(last - start, stride) + 1 > d.size { return false; }
      var selected := Quotient(last - start, stride) + 1;
      dims := dims[i := d.(start := start, stop := last, stride := stride, cSize := selected)];
      UpdateLength();
      ValidExact();
      return true;
    }

    method EditOne(e: Edit)
      requires Made()
      modifies this
      ensures Made() && dims == Edited(old(dims), e)
    {
      match e
      case Append(n) => AppendDim(n);
      case Prepend(n) => PrependDim(n);
      case Reset => ResetConstraint();
      case Constrain(i, start, stride, stop) =>
        if i < |dims| { var _ := AddConstraint(i, start, stride, stop); }
    }

    /** Any sequence of calls.  As long as the formula counts every selection that is accepted,
        each constrained size counts its indices and the length is their product. */
    method EditAll(es: seq<Edit>)
      requires Made()
      modifies this
      ensures Made() && dims == EditedAll(old(dims), es)
      ensures Valid() <==> AllSelect(EditedAll(old(dims), es))
      ensures old(Valid()) && SoundRun(old(dims), es) ==> Valid()
      ensures old(AllBounded(dims)) && SoundRun(old(dims), es) && StartsValid(es) ==> AllInside(dims)
    {
      hide Edited, Product, Quotient, AllSelect, AllComputed, AllBounded, AllInside, SoundRun, Whole;
      RunKeeps(dims, es);
      if AllBounded(dims) && SoundRun(dims, es) && StartsValid(es) { RunInside(dims, es); }
      ValidExact();
      var k := 0;
      assert es[0..] == es;
      while k < |es|
        invariant 0 <= k <= |es| && Made()
        invariant EditedAll(dims, es[k..]) == EditedAll(old(dims), es)
      {
        assert es[k..][0] == es[k] && es[k..][1..] == es[k + 1..];
        EditOne(es[k]);
        k := k + 1;
      }
      assert es[k..] == [];
      ValidExact();
    }
  }
}

/** Array::print_val and print_array. */
module ArrayPrinting {
  import opened ArrayShape

  /** What is written: braces, separators, and elements by position. */
  datatype Token = Open | Close | Comma | CommaSpace | Element(index: nat)

  /** A nested list of elements. */
  datatype Nest = Leaf(index: nat) | Nest(kids: seq<Nest>)

  function Volume(shape: seq<nat>): nat {
    if shape == [] then 1 else shape[0] * Volume(shape[1..])
  }

  /** The elements from `base` on, arranged in the shape, the last dimension varying fastest. */
  function Arranged(shape: seq<nat>, base: nat): Nest
    decreases shape, 0
  {
    if shape == [] then Leaf(base) else Nest(Rows(shape, 0, base))
  }

  /** The first element of row k. */
  function RowStart(shape: seq<nat>, k: nat, base: nat): nat
    requires shape != []
  {
    base + k * Volume(shape[1..])
  }

  /** Rows k, k + 1, ... of the first dimension. */
  function Rows(shape: seq<nat>, k: nat, base: nat): (r: seq<Nest>)
    requires shape != []
    ensures |r| == if k < shape[0] then shape[0] - k else 0
    decreases shape[1..], 1, if k < shape[0] then shape[0] - k else 0
  {
    if k >= shape[0] then []
    else [Arranged(shape[1..], RowStart(shape, k, base))] + Rows(shape, k + 1, base)
  }

  /** How a nested list is shown; single elements are separated by a comma and a space, lists
      by a comma. */
  function Show(n: Nest): seq<Token>
    decreases n, 0
  {
    match n
    case Leaf(i) => [Element(i)]
    case Nest(kids) => [Open] + ShowAll(kids) + [Close]
  }

  function ShowAll(ns: seq<Nest>): seq<Token>
    decreases ns, 1
  {
    if ns == [] then []
    else if |ns| == 1 then Show(ns[0])
    else Show(ns[0]) + [if ns[0].Leaf? then CommaSpace else Comma] + ShowAll(ns[1..])
  }

  // ---------------------------------------------------------------- row-major order

  predicate InShape(shape: seq<nat>, at: seq<nat>) {
    |at| == |shape| && forall d :: 0 <= d < |shape| ==> at[d] < shape[d]
  }

  /** The row-major position of a multi-index. */
  function Offset(shape: seq<nat>, at: seq<nat>): nat
    requires |at| == |shape|
  {
    if shape == [] then 0 else at[0] * Volume(shape[1..]) + Offset(shape[1..], at[1..])
  }

  function Pick(n: Nest, at: seq<nat>): Nest
    decreases |at|
  {
    if at == [] || n.Leaf? || at[0] >= |n.kids| then n else Pick(n.kids[at[0]], at[1..])
  }

  lemma {:induction false} RowAt(shape: seq<nat>, k: nat, base: nat, i: nat)
    requires shape != [] && k <= i < shape[0]
    ensures Rows(shape, k, base)[i - k] == Arranged(shape[1..], RowStart(shape, i, base))
    decreases i - k
  {
    hide Arranged, RowStart;
    if i > k {
      RowAt(shape, k + 1, base, i);
      assert Rows(shape, k, base)[i - k] == Rows(shape, k + 1, base)[i - k - 1];
    }
  }

  /** Following the braces of the printed form to a multi-index leads to the element at its
      row-major position. */
  lemma {:induction false} RowMajor(shape: seq<nat>, base: nat, at: seq<nat>)
    requires InShape(shape, at)
    ensures Pick(Arranged(shape, base), at) == Leaf(base + Offset(shape, at))
    decreases |shape|
  {
    if shape != [] {
      var rest := shape[1..];
      assert InShape(rest, at[1..]);
      RowAt(shape, 0, base, at[0]);
      RowMajor(rest, base + at[0] * Volume(rest), at[1..]);
    }
  }

  function Elements(ts: seq<Token>): seq<nat> {
    if ts == [] then [] else (if ts[0].Element? then [ts[0].index] else []) + Elements(ts[1..])
  }

  function Range(a: nat, n: nat): seq<nat>
    decreases n
  {
    if n == 0 then [] else [a] + Range(a + 1, n - 1)
  }

  lemma {:induction false} ElementsConcat(a: seq<Token>, b: seq<Token>)
    ensures Elements(a + b) == Elements(a) + Elements(b)
    decreases |a|
  {
    if a == [] {
      assert a + b == b;
    } else {
      assert (a + b)[0] == a[0] && (a + b)[1..] == a[1..] + b;
      ElementsConcat(a[1..], b);
    }
  }

  lemma {:induction false} RangeConcat(a: nat, m: nat, n: nat)
    ensures Range(a, m + n) == Range(a, m) + Range(a + m, n)
    decreases m
  {
    if m > 0 { RangeConcat(a + 1, m - 1, n); }
  }

  /** Every element is written exactly once, in order. */
  lemma {:induction false} EachElementOnce(shape: seq<nat>, base: nat)
    ensures Elements(Show(Arranged(shape, base))) == Range(base, Volume(shape))
    decreases |shape|, 0, 0
  {
    if shape == [] {
      assert Elements([Element(base)]) == [base] + Elements([]);
      assert Range(base + 1, 0) == [] && Range(base, 1) == [base] + Range(base + 1, 0);
    } else {
      var kids := Rows(shape, 0, base);
      RowsOnce(shape, 0, base);
      ElementsConcat([Open] + ShowAll(kids), [Close]);
      ElementsConcat([Open], ShowAll(kids));
      assert Elements([Open]) == [] && Elements([Close]) == [];
    }
  }

  /** The elements of n rows of v elements. */
  function Area(n: nat, v: nat): nat { n * v }

  lemma {:induction false} RowsOnce(shape: seq<nat>, k: nat, base: nat)
    requires shape != [] && k <= shape[0]
    ensures Elements(ShowAll(Rows(shape, k, base)))
      == Range(RowStart(shape, k, base), Area(shape[0] - k, Volume(shape[1..])))
    decreases |shape| - 1, 1, shape[0] - k
  {
    hide *;
    if k == shape[0] {
      NoRowsLeft(shape, base);
    } else {
      var v, start := Volume(shape[1..]), RowStart(shape, k, base);
      NextStart(shape, k, base);
      OneRowLess(shape[0] - k, v);
      EachElementOnce(shape[1..], start);
      RowsOnce(shape, k + 1, base);
      RangeConcat(start, v, Area(shape[0] - k - 1, v));
      OneMoreRow(shape, k, base);
    }
  }

  lemma NoRowsLeft(shape: seq<nat>, base: nat)
    requires shape != []
    ensures var k, v := shape[0], Volume(shape[1..]);
      Elements(ShowAll(Rows(shape, k, base))) == Range(RowStart(shape, k, base), Area(k - k, v))
  {
    assert ShowAll([]) == [];
  }

  lemma OneRowLess(n: nat, v: nat)
    requires n > 0
    ensures Area(n, v) == v + Area(n - 1, v)
  {
  }

  lemma NextStart(shape: seq<nat>, k: nat, base: nat)
    requires shape != []
    ensures RowStart(shape, 0, base) == base && RowStart(shape, shape[0], base) == base + Volume(shape)
    ensures RowStart(shape, k + 1, base) == RowStart(shape, k, base) + Volume(shape[1..])
  {
  }

  lemma OneMoreRow(shape: seq<nat>, k: nat, base: nat)
    requires shape != [] && k < shape[0]
    ensures Elements(ShowAll(Rows(shape, k, base)))
      == Elements(Show(Arranged(shape[1..], RowStart(shape, k, base))))
       + Elements(ShowAll(Rows(shape, k + 1, base)))
  {
    var kids, rest := Rows(shape, k, base), Rows(shape, k + 1, base);
    var first := Arranged(shape[1..], RowStart(shape, k, base));
    assert kids[0] == first && kids[1..] == rest && kids == [first] + rest;
    hide Rows, Arranged, RowStart, Show;
    if |kids| == 1 {
      assert rest == [] && Elements(ShowAll(rest)) == [];
      assert Elements(Show(first)) + [] == Elements(Show(first));
    } else {
      var sep := [if first.Leaf? then CommaSpace else Comma];
      ElementsConcat(Show(first) + sep, ShowAll(rest));
      ElementsConcat(Show(first), sep);
      assert Elements(sep) == [] && Elements(Show(first)) + [] == Elements(Show(first));
    }
  }

  /** A two by two array: single elements are parted by a comma and a space, rows by a comma. */
  lemma TwoByTwo()
    ensures Show(Arranged([2, 2], 0)) ==
      [Open, Open, Element(0), CommaSpace, Element(1), Close, Comma,
       Open, Element(2), CommaSpace, Element(3), Close, Close]
  {
    var shape, none: seq<nat> := [2, 2], [];
    assert shape[1..] == [2] && [2][1..] == none && Volume(none) == 1 && Volume([2]) == 2;
    RowShown(0);
    RowShown(2);
    assert Rows(shape, 2, 0) == [] && Rows(shape, 1, 0) == [Arranged([2], 2)];
    assert Rows(shape, 0, 0) == [Arranged([2], 0), Arranged([2], 2)];
    ShowAllCons(Arranged([2], 0), [Arranged([2], 2)]);
    ShowAllOne(Arranged([2], 2));
    assert [Arranged([2], 0)] + [Arranged([2], 2)] == [Arranged([2], 0), Arranged([2], 2)];
  }

  lemma RowShown(base: nat)
    ensures Show(Arranged([2], base)) == [Open, Element(base), CommaSpace, Element(base + 1), Close]
  {
    var none: seq<nat> := [];
    assert [2][1..] == none && Volume(none) == 1;
    assert Rows([2], 2, base) == [] && Rows([2], 1, base) == [Leaf(base + 1)];
    assert Rows([2], 0, base) == [Leaf(base), Leaf(base + 1)];
    ShowAllCons(Leaf(base), [Leaf(base + 1)]);
    ShowAllOne(Leaf(base + 1));
    assert [Leaf(base)] + [Leaf(base + 1)] == [Leaf(base), Leaf(base + 1)];
  }

  // ---------------------------------------------------------------- the printing loops

  lemma {:induction false} ShowAllSnoc(ns: seq<Nest>, n: Nest)
    requires ns != [] && forall x :: x in ns ==> x.Leaf? == ns[0].Leaf?
    ensures ShowAll(ns + [n]) == ShowAll(ns) + [if ns[0].Leaf? then CommaSpace else Comma] + Show(n)
    decreases |ns|
  {
    var sep := [if ns[0].Leaf? then CommaSpace else Comma];
    hide *;
    if |ns| == 1 {
      assert ns == [ns[0]];
      ShowAllOne(ns[0]);
      ShowAllOne(n);
      ShowAllCons(ns[0], [n]);
    } else {
      assert ns[1] in ns && ns[1..][0] == ns[1];
      assert ns == [ns[0]] + ns[1..] && ns + [n] == [ns[0]] + (ns[1..] + [n]);
      ShowAllSnoc(ns[1..], n);
      ShowAllCons(ns[0], ns[1..]);
      ShowAllCons(ns[0], ns[1..] + [n]);
      Regroup(Show(ns[0]) + sep, ShowAll(ns[1..]), sep, Show(n));
    }
  }

  lemma ShowAllOne(n: Nest)
    ensures ShowAll([n]) == Show(n)
  {
  }

  lemma ShowAllCons(n: Nest, ns: seq<Nest>)
    requires ns != []
    ensures ShowAll([n] + ns) == Show(n) + [if n.Leaf? then CommaSpace else Comma] + ShowAll(ns)
  {
    assert ([n] + ns)[1..] == ns;
  }

  lemma Regroup(a: seq<Token>, b: seq<Token>, c: seq<Token>, d: seq<Token>)
    ensures a + (b + c + d) == a + b + c + d
  {
  }

  /** The first k rows. */
  function FirstRows(shape: seq<nat>, k: nat, base: nat): (r: seq<Nest>)
    requires shape != []
    ensures |r| == k && forall x :: x in r ==> (x.Leaf? <==> |shape| == 1)
    decreases k
  {
    if k == 0 then [] else FirstRows(shape, k - 1, base) + [Arranged(shape[1..], RowStart(shape, k - 1, base))]
  }

  lemma {:induction false} FirstAndRest(shape: seq<nat>, k: nat, base: nat)
    requires shape != [] && k <= shape[0]
    ensures FirstRows(shape, k, base) + Rows(shape, k, base) == Rows(shape, 0, base)
    decreases k
  {
    hide RowStart, Arranged;
    if k > 0 { FirstAndRest(shape, k - 1, base); }
  }

  lemma AllRows(shape: seq<nat>, base: nat)
    requires shape != []
    ensures Show(Arranged(shape, base)) == [Open] + ShowAll(FirstRows(shape, shape[0], base)) + [Close]
  {
    FirstAndRest(shape, shape[0], base);
    assert FirstRows(shape, shape[0], base) + [] == FirstRows(shape, shape[0], base);
  }

  /** One more row behind the first k. */
  lemma NextRow(shape: seq<nat>, k: nat, base: nat)
    requires shape != []
    ensures var row := Show(Arranged(shape[1..], RowStart(shape, k, base)));
      ShowAll(FirstRows(shape, k + 1, base)) ==
        if k == 0 then row
        else ShowAll(FirstRows(shape, k, base)) + [if |shape| == 1 then CommaSpace else Comma] + row
  {
    hide RowStart;
    var n := Arranged(shape[1..], RowStart(shape, k, base));
    var ns := FirstRows(shape, k, base);
    if k == 0 {
      assert ns + [n] == [n];
    } else {
      assert ns[0] in ns;
      ShowAllSnoc(ns, n);
    }
  }

  function Separator(shape: seq<nat>): Token { if |shape| == 1 then CommaSpace else Comma }

  /** What is between the braces when k rows and their separators have been written. */
  function Sofar(shape: seq<nat>, k: nat, base: nat): seq<Token>
    requires shape != []
  {
    if k == 0 then [] else ShowAll(FirstRows(shape, k, base)) + [Separator(shape)]
  }

  lemma OneMore(out: seq<Token>, shape: seq<nat>, k: nat, base: nat)
    requires shape != [] && k < shape[0]
    ensures var row := Show(Arranged(shape[1..], RowStart(shape, k, base)));
      && out + [Open] + Sofar(shape, k, base) + row + [Separator(shape)] == out + [Open] + Sofar(shape, k + 1, base)
      && (k + 1 == shape[0] ==>
            out + [Open] + Sofar(shape, k, base) + row + [Close] == out + Show(Arranged(shape, base)))
  {
    NextRow(shape, k, base);
    AllRows(shape, base);
    var row := Show(Arranged(shape[1..], RowStart(shape, k, base)));
    var total := ShowAll(FirstRows(shape, k + 1, base));
    SofarIs(shape, k, base, row);
    hide Show, ShowAll, FirstRows, Arranged, Rows, RowStart;
    assert Sofar(shape, k + 1, base) == total + [Separator(shape)];
    hide Sofar;
    Glue(out, Sofar(shape, k, base), row, Separator(shape), total);
  }

  lemma SofarIs(shape: seq<nat>, k: nat, base: nat, row: seq<Token>)
    requires shape != []
    requires ShowAll(FirstRows(shape, k + 1, base)) ==
      if k == 0 then row else ShowAll(FirstRows(shape, k, base)) + [Separator(shape)] + row
    ensures Sofar(shape, k, base) + row == ShowAll(FirstRows(shape, k + 1, base))
  {
    hide ShowAll, FirstRows;
  }

  lemma Glue(out: seq<Token>, a: seq<Token>, row: seq<Token>, s: Token, total: seq<Token>)
    requires a + row == total
    ensures out + [Open] + a + row + [s] == out + [Open] + (total + [s])
    ensures out + [Open] + a + row + [Close] == out + ([Open] + total + [Close])
  {
    assert out + [Open] + a + row == out + [Open] + total;
  }

  lemma Empty(shape: seq<nat>, base: nat)
    requires shape != [] && shape[0] == 0
    ensures Show(Arranged(shape, base)) == [Open] + [Close] && Volume(shape) == 0
  {
    AllRows(shape, base);
  }

  lemma Beginning(out: seq<Token>, shape: seq<nat>, base: nat)
    requires shape != []
    ensures out + [Open] + Sofar(shape, 0, base) == out + [Open]
    ensures RowStart(shape, 0, base) == base
  {
  }

  /** print_array for the last dimension. */
  method PrintLast(out: seq<Token>, index: nat, shape: seq<nat>) returns (out': seq<Token>, index': nat)
    requires |shape| == 1
    ensures out' == out + Show(Arranged(shape, index)) && index' == index + Volume(shape)
  {
    out', index' := out + [Open], index;
    if shape[0] >= 1 {
      Beginning(out, shape, index);
      hide *;
      var i := 0;
      while i < shape[0] - 1
        invariant 0 <= i <= shape[0] - 1 && index' == RowStart(shape, i, index)
        invariant out' == out + [Open] + Sofar(shape, i, index)
      {
        OneMore(out, shape, i, index);
        NextStart(shape, i, index);
        OneElement(shape, index');
        out' := out' + [Element(index')] + [Separator(shape)];
        index' := index' + 1;
        i := i + 1;
      }
      OneMore(out, shape, i, index);
      NextStart(shape, i, index);
      OneElement(shape, index');
      out' := out' + [Element(index')] + [Close];
      index' := index' + 1;
    } else {
      Empty(shape, index);
      out' := out' + [Close];
    }
  }

  /** print_array: what it appends to the output, and the next index. */
  method PrintArray(out: seq<Token>, index: nat, shape: seq<nat>) returns (out': seq<Token>, index': nat)
    requires shape != []
    ensures out' == out + Show(Arranged(shape, index)) && index' == index + Volume(shape)
    decreases |shape|
  {
    if |shape| == 1 {
      out', index' := PrintLast(out, index, shape);
      return;
    }
    out', index' := out + [Open], index;
    if shape[0] > 0 {
      Beginning(out, shape, index);
      hide *;
      var i := 0;
      while i < shape[0] - 1
        invariant 0 <= i <= shape[0] - 1 && index' == RowStart(shape, i, index)
        invariant out' == out + [Open] + Sofar(shape, i, index)
      {
        OneMore(out, shape, i, index);
        NextStart(shape, i, index);
        out', index' := PrintArray(out', index', shape[1..]);
        out' := out' + [Separator(shape)];
        i := i + 1;
      }
      OneMore(out, shape, i, index);
      NextStart(shape, i, index);
      out', index' := PrintArray(out', index', shape[1..]);
      out' := out' + [Close];
    } else {
      Empty(shape, index);
      out' := out' + [Close];
    }
  }

  lemma OneElement(shape: seq<nat>, base: nat)
    requires |shape| == 1
    ensures Show(Arranged(shape[1..], base)) == [Element(base)] && Volume(shape[1..]) == 1
  {
    assert shape[1..] == [];
  }

  // ---------------------------------------------------------------- a shape with constraints

  /** The constrained sizes. */
  function Sizes(dims: seq<Dimension>): (r: seq<nat>)
    requires forall i :: 0 <= i < |dims| ==> Counted(dims[i])
    ensures |r| == |dims|
  {
    seq<nat>(|dims|, i requires 0 <= i < |dims| && Counted(dims[i]) => dims[i].cSize)
  }

  lemma {:induction false} VolumeSnoc(shape: seq<nat>, n: nat)
    ensures Volume(shape + [n]) == Volume(shape) * n
    decreases |shape|
  {
    if shape == [] {
      assert [] + [n] == [n] && [n][1..] == [];
    } else {
      assert (shape + [n])[0] == shape[0] && (shape + [n])[1..] == shape[1..] + [n];
      VolumeSnoc(shape[1..], n);
      assert shape[0] * (Volume(shape[1..]) * n) == (shape[0] * Volume(shape[1..])) * n;
    }
  }

  /** Multiplying from the back, as update_length does, and from the front. */
  lemma {:induction false} VolumeIsProduct(dims: seq<Dimension>)
    requires forall i :: 0 <= i < |dims| ==> Counted(dims[i])
    ensures Volume(Sizes(dims)) == Product(dims)
    decreases |dims|
  {
    if dims != [] {
      var n := |dims| - 1;
      VolumeIsProduct(dims[..n]);
      assert Sizes(dims) == Sizes(dims[..n]) + [dims[n].cSize as nat];
      VolumeSnoc(Sizes(dims[..n]), dims[n].cSize);
    }
  }

  /** Row-major positions lie below the number of elements. */
  lemma {:induction false} OffsetBelow(shape: seq<nat>, at: seq<nat>)
    requires InShape(shape, at)
    ensures Offset(shape, at) < Volume(shape)
    decreases |shape|
  {
    if shape != [] {
      var v := Volume(shape[1..]);
      assert InShape(shape[1..], at[1..]);
      OffsetBelow(shape[1..], at[1..]);
      assert at[0] * v + v == (at[0] + 1) * v;
      RowsFit(at[0] + 1, shape[0], v);
    }
  }

  lemma RowsFit(k: nat, n: nat, v: nat)
    requires k <= n
    ensures k * v <= n * v
  {
  }

  /** print_val of an array whose number of elements is an int: the braces follow the constrained
      sizes, elements 0 to length - 1 are written exactly once and in order, and the element
      that the braces show at a multi-index is the one at its row-major position. */
  method PrintVal(a: Shape) returns (out: seq<Token>)
    requires a.Valid() && a.dims != [] && Product(a.dims) < TWO_TO_31
    ensures a.length >= 0 && Elements(out) == Range(0, a.length)
    ensures out == Show(Arranged(Sizes(a.dims), 0))
    ensures forall at :: InShape(Sizes(a.dims), at) ==>
      Offset(Sizes(a.dims), at) < a.length && Pick(Arranged(Sizes(a.dims), 0), at) == Leaf(Offset(Sizes(a.dims), at))
  {
    var shape := new nat[|a.dims|];
    var index := 0;
    while index < |a.dims|
      invariant 0 <= index <= |a.dims| && forall j :: 0 <= j < index ==> shape[j] == a.dims[j].cSize
    {
      assert Counted(a.dims[index]);
      shape[index] := a.dims[index].cSize;
      index := index + 1;
    }
    assert shape[..] == Sizes(a.dims);
    var end: nat;
    out, end := PrintArray([], 0, shape[..]);
    assert [] + Show(Arranged(shape[..], 0)) == Show(Arranged(shape[..], 0));
    VolumeIsProduct(a.dims);
    Int32Fits(Product(a.dims));
    EachElementOnce(shape[..], 0);
    forall at | InShape(Sizes(a.dims), at)
      ensures Offset(Sizes(a.dims), at) < a.length
      ensures Pick(Arranged(Sizes(a.dims), 0), at) == Leaf(Offset(Sizes(a.dims), at)) {
      OffsetBelow(Sizes(a.dims), at);
      RowMajor(Sizes(a.dims), 0, at);
    }
  }
}
