/** Sizes, alignments and field offsets of types, in bits. */
module TypeLayout {
  import opened Powers

  datatype Type =
    | Integer(width: nat)
    | Float(width: nat)
    | Pointer
    | Array(count: nat, element: Type)
    | Vector(count: nat, element: Type)
    | Struct(fields: seq<Type>, packed: bool)

  // ---- Rounding up ----

  /** x & ~m, bit by bit. */
  function AndNot(x: nat, m: nat): nat {
    if x == 0 then 0 else 2 * AndNot(x / 2, m / 2) + (if x % 2 == 1 && m % 2 == 0 then 1 else 0)
  }

  function AlignTo(value: nat, align: nat): nat
    requires align > 0
  {
    AndNot(value + align - 1, align - 1)
  }

  predicate IsLeastMultiple(r: nat, value: nat, align: nat)
    requires align > 0
  {
    r % align == 0 && value <= r < value + align
  }

  ghost predicate IsPower(a: nat) {
    exists k: nat :: a == Pow2(k)
  }

  lemma {:induction false} ClearsLowBits(x: nat, k: nat)
    ensures AndNot(x, Pow2(k) - 1) == x - x % Pow2(k)
    decreases k
  {
    if x == 0 {
      SmallRemainder(0, Pow2(k));
    } else if k == 0 {
      KeepsAll(x);
    } else {
      hide AndNot;
      assert Pow2(k) == 2 * Pow2(k - 1);
      ClearsLowBits(x / 2, k - 1);
      ClearsNext(x, Pow2(k - 1));
    }
  }

  lemma ClearsNext(x: nat, h: nat)
    requires x > 0 && h > 0 && AndNot(x / 2, h - 1) == x / 2 - x / 2 % h
    ensures AndNot(x, 2 * h - 1) == x - x % (2 * h)
  {
    HalvedRemainder(x, h);
    assert (2 * h - 1) / 2 == h - 1 && (2 * h - 1) % 2 == 1;
    assert AndNot(x, 2 * h - 1) == 2 * AndNot(x / 2, h - 1);
  }

  lemma {:induction false} KeepsAll(x: nat)
    ensures AndNot(x, 0) == x
  {
    if x > 0 {
      KeepsAll(x / 2);
    }
  }

  lemma HalvedRemainder(x: nat, h: nat)
    requires h > 0
    ensures x % (2 * h) == 2 * (x / 2 % h) + x % 2
  {
    var y := x / 2;
    var r := 2 * (y % h) + x % 2;
    ModBounds(y, h);
    assert y == y / h * h + y % h;
    assert x == r + 2 * h * (y / h);
    SameRemainder(x, r, 2 * h, y / h);
    SmallRemainder(r, 2 * h);
  }

  lemma RoundsUp(value: nat, k: nat)
    ensures IsLeastMultiple(AlignTo(value, Pow2(k)), value, Pow2(k))
  {
    hide AndNot, Pow2;
    ClearsLowBits(value + Pow2(k) - 1, k);
    LastMultiple(value + Pow2(k) - 1, Pow2(k));
  }

  lemma LastMultiple(x: nat, m: nat)
    requires m > 0
    ensures (x - x % m) % m == 0 && x - x % m <= x < x - x % m + m
  {
    ModBounds(x, m);
    assert x - x % m == m * (x / m);
    SameRemainder(x - x % m, 0, m, x / m);
    SmallRemainder(0, m);
  }

  lemma {:induction false} NothingLeft(x: nat)
    ensures AndNot(x, x) == 0
  {
    if x > 0 {
      NothingLeft(x / 2);
    }
  }

  /** Only a power of two has no bit in common with its predecessor. */
  lemma {:induction false} LowestBit(a: nat)
    requires a > 0 && AndNot(a, a - 1) == a
    ensures IsPower(a)
  {
    var b := a / 2;
    if a % 2 == 0 {
      assert (a - 1) / 2 == b - 1;
      LowestBit(b);
      var k: nat :| b == Pow2(k);
      assert a == Pow2(k + 1);
    } else if a == 1 {
      assert a == Pow2(0);
    } else {
      assert (a - 1) / 2 == b;
      NothingLeft(b);
    }
  }

  /** Rounding by masking rounds every value up to the next multiple exactly for the powers of two. */
  lemma AlignsIffPower(align: nat)
    requires align > 0
    ensures IsPower(align) <==> forall value: nat :: IsLeastMultiple(AlignTo(value, align), value, align)
  {
    if IsPower(align) {
      var k: nat :| align == Pow2(k);
      forall value: nat ensures IsLeastMultiple(AlignTo(value, align), value, align) {
        RoundsUp(value, k);
      }
    }
    if forall value: nat :: IsLeastMultiple(AlignTo(value, align), value, align) {
      assert IsLeastMultiple(AlignTo(1, align), 1, align);
      var r := AlignTo(1, align);
      if r < align {
        SmallRemainder(r, align);
      }
      LowestBit(align);
    }
  }

  // ---- Sizes and alignments ----

  function Times(n: nat, size: nat): nat {
    n * size
  }

  /** In bits, for a target whose pointers have so many. */
  function Size(t: Type, pointer: nat): nat
    decreases t, 1
  {
    match t
    case Integer(w) => w
    case Float(w) => w
    case Pointer => pointer
    case Array(n, e) => Times(n, Size(e, pointer))
    case Vector(n, e) => Times(n, Size(e, pointer))
    case Struct(fs, packed) =>
      if fs == [] then 0
      else if packed then End(fs, packed, pointer)
      else Rounded(End(fs, packed, pointer), Align(t, pointer))
  }

  function Align(t: Type, pointer: nat): nat
    decreases t, 0
  {
    match t
    case Integer(w) => if w <= pointer then w else pointer
    case Float(w) => w
    case Pointer => pointer
    case Array(_, e) => Align(e, pointer)
    case Vector(n, e) => Times(n, Size(e, pointer))
    case Struct(fs, packed) => if packed then 8 else Largest(fs, pointer)
  }

  function Largest(fs: seq<Type>, pointer: nat): nat {
    if fs == [] then 8
    else
      var rest, last := Largest(fs[..|fs| - 1], pointer), Align(fs[|fs| - 1], pointer);
      if last > rest then last else rest
  }

  /** An alignment of zero bits, which only void and the like have, masks everything away. */
  function Rounded(value: nat, align: nat): nat {
    if align == 0 then 0 else AlignTo(value, align)
  }

  /** Where the last field starts. */
  function Start(fs: seq<Type>, packed: bool, pointer: nat): nat
    requires fs != []
    decreases fs, 0
  {
    var before := End(fs[..|fs| - 1], packed, pointer);
    if packed then before else Rounded(before, Align(fs[|fs| - 1], pointer))
  }

  /** Where the last field ends. */
  function End(fs: seq<Type>, packed: bool, pointer: nat): nat
    decreases fs, 1
  {
    if fs == [] then 0 else Start(fs, packed, pointer) + Size(fs[|fs| - 1], pointer)
  }

  /** Where each field starts. */
  function Offsets(fs: seq<Type>, packed: bool, pointer: nat): (os: seq<nat>)
    ensures |os| == |fs|
    decreases |fs|
  {
    if fs == [] then [] else Offsets(fs[..|fs| - 1], packed, pointer) + [Start(fs, packed, pointer)]
  }

  // ---- What sizes and alignments are ----

  /** One element more takes the size of an element more, and none takes nothing; vectors likewise. */
  lemma ArrayGrows(n: nat, e: Type, pointer: nat)
    ensures Size(Array(0, e), pointer) == 0
            && Size(Array(n + 1, e), pointer) == Size(Array(n, e), pointer) + Size(e, pointer)
    ensures Size(Vector(0, e), pointer) == 0
         && Size(Vector(n + 1, e), pointer) == Size(Vector(n, e), pointer) + Size(e, pointer)
  {
    hide Size;
    ArrayTimes(0, e, pointer);
    ArrayTimes(n, e, pointer);
    ArrayTimes(n + 1, e, pointer);
  }

  lemma ArrayTimes(n: nat, e: Type, pointer: nat)
    ensures Size(Array(n, e), pointer) == n * Size(e, pointer) && Size(Vector(n, e), pointer) == n * Size(e, pointer)
  {
  }

  /** A value is as large as it says; an integer is aligned as the smaller of it and a pointer, a float as itself. */
  lemma ScalarLayout(w: nat, pointer: nat)
    ensures Size(Integer(w), pointer) == w && Size(Float(w), pointer) == w && Size(Pointer, pointer) == pointer
    ensures Align(Integer(w), pointer) <= w && Align(Integer(w), pointer) <= pointer
    ensures Align(Integer(w), pointer) == w || Align(Integer(w), pointer) == pointer
    ensures Align(Float(w), pointer) == w && Align(Pointer, pointer) == pointer
  {
  }

  /** Arrays are aligned as their elements, vectors as themselves, packed structs to a byte. */
  lemma CompoundAlign(n: nat, e: Type, fs: seq<Type>, pointer: nat)
    ensures Align(Array(n, e), pointer) == Align(e, pointer)
    ensures Align(Vector(n, e), pointer) == Size(Vector(n, e), pointer)
    ensures Align(Struct(fs, true), pointer) == 8 && Size(Struct([], false), pointer) == 0
  {
  }

  /** Other structs are aligned to the largest alignment of a field, but to no less than a byte. */
  lemma {:induction false} StructAlign(fs: seq<Type>, pointer: nat)
    ensures var a := Align(Struct(fs, false), pointer);
      && a >= 8 && (forall k :: 0 <= k < |fs| ==> Align(fs[k], pointer) <= a)
      && (a == 8 || exists k :: 0 <= k < |fs| && Align(fs[k], pointer) == a)
    decreases |fs|
  {
    if fs != [] {
      var front := fs[..|fs| - 1];
      StructAlign(front, pointer);
      forall k | 0 <= k < |fs| ensures Align(fs[k], pointer) <= Largest(fs, pointer) {
        assert k < |front| ==> fs[k] == front[k];
      }
      if Largest(fs, pointer) != 8 && Largest(fs, pointer) == Largest(front, pointer) {
        var k :| 0 <= k < |front| && Align(front[k], pointer) == Largest(front, pointer);
        assert fs[k] == front[k];
      } else {
        assert fs[|fs| - 1] == fs[|fs| - 1];
      }
    }
  }

  // ---- Types whose parts have powers of two for their sizes ----

  predicate PlainScalar(t: Type) {
    match t
    case Integer(w) => w in {1, 8, 16, 32, 64, 128}
    case Float(w) => w in {16, 32, 64, 128}
    case Pointer => true
    case _ => false
  }

  predicate Plain(t: Type) {
    match t
    case Array(n, e) => n > 0 && Plain(e)
    case Vector(n, e) => n in {2, 4, 8, 16, 32, 64} && PlainScalar(e)
    case Struct(fs, packed) => !packed && forall k :: 0 <= k < |fs| ==> Plain(fs[k])
    case _ => PlainScalar(t)
  }

  lemma SmallPowers(n: nat)
    requires n in {1, 2, 4, 8, 16, 32, 64, 128}
    ensures IsPower(n)
  {
    assert Pow2(0) == 1;
    assert Pow2(1) == 2 * Pow2(0) && Pow2(2) == 2 * Pow2(1) && Pow2(3) == 2 * Pow2(2) && Pow2(4) == 2 * Pow2(3);
    assert Pow2(5) == 2 * Pow2(4) && Pow2(6) == 2 * Pow2(5) && Pow2(7) == 2 * Pow2(6);
  }

  lemma PowerTimesPower(a: nat, b: nat)
    requires IsPower(a) && IsPower(b)
    ensures IsPower(Times(a, b))
  {
    hide Pow2;
    var i: nat :| a == Pow2(i);
    var j: nat :| b == Pow2(j);
    PowersMultiply(i, j);
    assert a * b == Pow2(i + j);
  }

  /** Of two powers of two the smaller divides the larger. */
  lemma SmallerDivides(a: nat, b: nat)
    requires IsPower(a) && IsPower(b) && a <= b
    ensures a > 0 && b % a == 0
  {
    hide Pow2;
    var i: nat :| a == Pow2(i);
    var j: nat :| b == Pow2(j);
    if i > j {
      PowerGrows(j, i - j);
    }
    PowersMultiply(i, j - i);
    DividesProduct(a, Pow2(j - i));
  }

  lemma {:induction false} PowerGrows(n: nat, more: nat)
    requires more > 0
    ensures Pow2(n + more) > Pow2(n)
    decreases more
  {
    if more > 1 {
      PowerGrows(n, more - 1);
    }
  }

  lemma DividesProduct(a: nat, k: nat)
    requires a > 0
    ensures a * k % a == 0
  {
    SameRemainder(a * k, 0, a, k);
    SmallRemainder(0, a);
  }

  lemma DividesThrough(x: nat, b: nat, a: nat)
    requires a > 0 && b > 0 && x % b == 0 && b % a == 0
    ensures x % a == 0
  {
    assert x == b * (x / b) && b == a * (b / a);
    assert x == a * (b / a * (x / b));
    DividesProduct(a, b / a * (x / b));
  }

  lemma DividesSum(x: nat, y: nat, a: nat)
    requires a > 0 && x % a == 0 && y % a == 0
    ensures (x + y) % a == 0
  {
    assert x == a * (x / a) && y == a * (y / a);
    assert x + y == a * (x / a + y / a);
    DividesProduct(a, x / a + y / a);
  }

  lemma RoundedByPower(value: nat, a: nat)
    requires IsPower(a)
    ensures a > 0 && IsLeastMultiple(Rounded(value, a), value, a)
  {
    hide AndNot;
    var k: nat :| a == Pow2(k);
    RoundsUp(value, k);
  }

  /** The alignment of a plain type is a power of two, and its size a multiple of it. */
  lemma {:induction false} PlainIsRegular(t: Type, pointer: nat)
    requires Plain(t) && IsPower(pointer)
    ensures IsPower(Align(t, pointer)) && Align(t, pointer) > 0 && Size(t, pointer) % Align(t, pointer) == 0
    decreases t
  {
    hide Pow2, AndNot, IsPower;
    match t
    case Array(n, e) =>
      PlainIsRegular(e, pointer);
      Repeated(n, Size(e, pointer), Align(e, pointer));
    case Vector(n, e) =>
      ScalarIsPower(e, pointer);
      SmallPowers(n);
      PowerTimesPower(n, Size(e, pointer));
      SelfDivides(Times(n, Size(e, pointer)));
    case Struct(fs, _) =>
      LargestIsPower(fs, pointer);
      if fs != [] {
        RoundedByPower(End(fs, false, pointer), Align(t, pointer));
      } else {
        SmallRemainder(0, Align(t, pointer));
      }
    case Integer(w) =>
      SmallPowers(w);
      IntegerIsRegular(w, pointer);
    case Float(w) =>
      SmallPowers(w);
      SelfDivides(w);
    case Pointer =>
      SelfDivides(pointer);
  }

  lemma SelfDivides(a: nat)
    requires IsPower(a)
    ensures a > 0 && a % a == 0
  {
  }

  lemma Repeated(n: nat, size: nat, a: nat)
    requires a > 0 && size % a == 0
    ensures Times(n, size) % a == 0
  {
    assert n * size == a * (n * (size / a)) by { assert size == a * (size / a); }
    DividesProduct(a, n * (size / a));
  }

  lemma IntegerIsRegular(w: nat, pointer: nat)
    requires IsPower(w) && IsPower(pointer)
    ensures w <= pointer ==> w > 0 && w % w == 0
    ensures w > pointer ==> pointer > 0 && w % pointer == 0
  {
    if w > pointer {
      SmallerDivides(pointer, w);
    } else {
      SelfDivides(w);
    }
  }

  lemma ScalarIsPower(t: Type, pointer: nat)
    requires PlainScalar(t) && IsPower(pointer)
    ensures IsPower(Size(t, pointer))
  {
    if !t.Pointer? {
      SmallPowers(t.width);
    }
  }

  lemma {:induction false} LargestIsPower(fs: seq<Type>, pointer: nat)
    requires IsPower(pointer) && forall k :: 0 <= k < |fs| ==> Plain(fs[k])
    ensures IsPower(Largest(fs, pointer)) && Largest(fs, pointer) >= 8
    decreases fs
  {
    if fs == [] {
      SmallPowers(8);
    } else {
      LargestIsPower(fs[..|fs| - 1], pointer);
      PlainIsRegular(fs[|fs| - 1], pointer);
    }
  }

  // ---- Structs ----

  /** A field starts at the first aligned place behind the one before. */
  predicate LeastAt(fs: seq<Type>, pointer: nat, i: nat)
    requires i < |fs|
  {
    var os := Offsets(fs, false, pointer);
    && Align(fs[i], pointer) > 0
    && IsLeastMultiple(os[i], if i == 0 then 0 else os[i - 1] + Size(fs[i - 1], pointer), Align(fs[i], pointer))
  }

  /** All of them do, and the size is the first multiple of the struct's own alignment behind the last. */
  predicate TightLayout(fs: seq<Type>, pointer: nat) {
    && (forall i :: 0 <= i < |fs| ==> LeastAt(fs, pointer, i))
    && Align(Struct(fs, false), pointer) > 0
    && IsLeastMultiple(Size(Struct(fs, false), pointer),
                       if fs == [] then 0 else Offsets(fs, false, pointer)[|fs| - 1] + Size(fs[|fs| - 1], pointer),
                       Align(Struct(fs, false), pointer))
  }

  lemma {:induction false} OffsetsAreLeast(fs: seq<Type>, pointer: nat)
    requires IsPower(pointer) && forall k :: 0 <= k < |fs| ==> Plain(fs[k])
    ensures forall i :: 0 <= i < |fs| ==> LeastAt(fs, pointer, i)
    decreases |fs|
  {
    hide IsPower, Plain, Rounded, Size, Align, IsLeastMultiple;
    if fs != [] {
      var front, last := fs[..|fs| - 1], fs[|fs| - 1];
      OffsetsAreLeast(front, pointer);
      PlainIsRegular(last, pointer);
      RoundedByPower(End(front, false, pointer), Align(last, pointer));
      EndIsLast(front, pointer);
      forall i | 0 <= i < |fs| ensures LeastAt(fs, pointer, i) {
        assert i < |front| ==> LeastAt(front, pointer, i);
      }
    }
  }

  lemma EndIsLast(fs: seq<Type>, pointer: nat)
    ensures End(fs, false, pointer) ==
            if fs == [] then 0
            else Offsets(fs, false, pointer)[|fs| - 1] + Size(fs[|fs| - 1], pointer)
  {
  }

  lemma PlainLayoutIsTight(fs: seq<Type>, pointer: nat)
    requires Plain(Struct(fs, false)) && IsPower(pointer)
    ensures TightLayout(fs, pointer)
  {
    OffsetsAreLeast(fs, pointer);
    EndIsLast(fs, pointer);
    LargestIsPower(fs, pointer);
    hide IsPower, AndNot, Offsets, Start;
    RoundedByPower(End(fs, false, pointer), Largest(fs, pointer));
    SmallRemainder(0, Largest(fs, pointer));
  }

  // ---- All the way down ----

  /** A scalar or vector inside a value, and where it lies. */
  datatype Leaf = Leaf(start: nat, ty: Type)

  function Leaves(t: Type, pointer: nat, base: nat): seq<Leaf>
    decreases t, 0, 0
  {
    match t
    case Array(n, e) => ElementLeaves(t, n, pointer, base)
    case Struct(fs, packed) => FieldLeaves(fs, packed, pointer, base)
    case _ => [Leaf(base, t)]
  }

  function ElementLeaves(t: Type, n: nat, pointer: nat, base: nat): seq<Leaf>
    requires t.Array?
    decreases t.element, 1, n
  {
    if n == 0 then []
    else
      ElementLeaves(t, n - 1, pointer, base)
      + Leaves(t.element, pointer, base + Times(n - 1, Size(t.element, pointer)))
  }

  function FieldLeaves(fs: seq<Type>, packed: bool, pointer: nat, base: nat): seq<Leaf>
    decreases fs, 0, 0
  {
    if fs == [] then []
    else
      FieldLeaves(fs[..|fs| - 1], packed, pointer, base)
      + Leaves(fs[|fs| - 1], pointer, base + Start(fs, packed, pointer))
  }

  /** Aligned, between the bounds, and one behind the other. */
  predicate WellPlaced(ls: seq<Leaf>, pointer: nat, from: nat, to: nat) {
    && from <= to
    && (forall i :: 0 <= i < |ls| ==>
          && from <= ls[i].start && ls[i].start + Size(ls[i].ty, pointer) <= to
          && Align(ls[i].ty, pointer) > 0 && ls[i].start % Align(ls[i].ty, pointer) == 0)
    && (forall i, j :: 0 <= i < j < |ls| ==> ls[i].start + Size(ls[i].ty, pointer) <= ls[j].start)
  }

  lemma PlacedBehind(a: seq<Leaf>, b: seq<Leaf>, pointer: nat, from: nat, mid: nat, next: nat, to: nat)
    requires WellPlaced(a, pointer, from, mid) && WellPlaced(b, pointer, next, to) && mid <= next
    ensures WellPlaced(a + b, pointer, from, to)
  {
    hide Size, Align;
    assert forall i :: 0 <= i < |a + b| ==> (a + b)[i] == if i < |a| then a[i] else b[i - |a|];
  }

  /** Nothing inside an aligned value is misaligned, sticks out or overlaps, through arrays and nested structs. */
  lemma {:induction false} LeavesAreWellPlaced(t: Type, pointer: nat, base: nat)
    requires Plain(t) && IsPower(pointer) && Align(t, pointer) > 0 && base % Align(t, pointer) == 0
    ensures WellPlaced(Leaves(t, pointer, base), pointer, base, base + Size(t, pointer))
    decreases t, 0, 0
  {
    hide WellPlaced, IsPower, AndNot, IsLeastMultiple, Times;
    match t
    case Array(n, e) =>
      ElementsAreWellPlaced(t, n, pointer, base);
    case Struct(fs, _) =>
      LargestIsPower(fs, pointer);
      FieldsAreWellPlaced(fs, pointer, base);
      StructCovers(fs, pointer);
      WiderPlaced(Leaves(t, pointer, base), pointer, base, base + End(fs, false, pointer), base + Size(t, pointer));
    case _ =>
      OnePlaced(t, pointer, base);
  }

  lemma StructCovers(fs: seq<Type>, pointer: nat)
    requires IsPower(Largest(fs, pointer))
    ensures End(fs, false, pointer) <= Size(Struct(fs, false), pointer)
  {
    hide IsPower, AndNot;
    RoundedByPower(End(fs, false, pointer), Largest(fs, pointer));
  }

  lemma WiderPlaced(ls: seq<Leaf>, pointer: nat, from: nat, to: nat, further: nat)
    requires WellPlaced(ls, pointer, from, to) && to <= further
    ensures WellPlaced(ls, pointer, from, further)
  {
    hide Size, Align;
  }

  lemma OnePlaced(t: Type, pointer: nat, base: nat)
    requires Align(t, pointer) > 0 && base % Align(t, pointer) == 0
    ensures WellPlaced([Leaf(base, t)], pointer, base, base + Size(t, pointer))
  {
    hide Size, Align;
  }

  lemma {:induction false} ElementsAreWellPlaced(t: Type, n: nat, pointer: nat, base: nat)
    requires t.Array? && Plain(t.element) && IsPower(pointer)
    requires Align(t.element, pointer) > 0 && base % Align(t.element, pointer) == 0
    ensures WellPlaced(ElementLeaves(t, n, pointer, base), pointer, base, base + Times(n, Size(t.element, pointer)))
    decreases t.element, 1, n
  {
    hide WellPlaced, Leaves, IsPower, Plain, Size, Align, Times;
    var size := Size(t.element, pointer);
    if n == 0 {
      NonePlaced(pointer, base);
      NoneTimes(size);
    } else {
      ElementsAreWellPlaced(t, n - 1, pointer, base);
      PlainIsRegular(t.element, pointer);
      Repeated(n - 1, size, Align(t.element, pointer));
      var mid := base + Times(n - 1, size);
      DividesSum(base, Times(n - 1, size), Align(t.element, pointer));
      LeavesAreWellPlaced(t.element, pointer, mid);
      OneMore(n - 1, size);
      PlacedBehind(ElementLeaves(t, n - 1, pointer, base), Leaves(t.element, pointer, mid),
                   pointer, base, mid, mid, mid + size);
    }
  }

  lemma NoneTimes(size: nat)
    ensures Times(0, size) == 0
  {
  }

  lemma OneMore(n: nat, size: nat)
    ensures Times(n + 1, size) == Times(n, size) + size
  {
  }

  lemma NonePlaced(pointer: nat, base: nat)
    ensures WellPlaced([], pointer, base, base)
  {
  }

  lemma {:induction false} FieldsAreWellPlaced(fs: seq<Type>, pointer: nat, base: nat)
    requires IsPower(pointer) && forall k :: 0 <= k < |fs| ==> Plain(fs[k])
    requires Largest(fs, pointer) > 0 && base % Largest(fs, pointer) == 0
    ensures WellPlaced(FieldLeaves(fs, false, pointer, base), pointer, base, base + End(fs, false, pointer))
    decreases fs, 0, 0
  {
    hide WellPlaced, Leaves, IsPower, Plain, Size, Align, IsLeastMultiple;
    if fs == [] {
      NonePlaced(pointer, base);
    } else {
      var front, last := fs[..|fs| - 1], fs[|fs| - 1];
      FieldIsAligned(fs, pointer, base);
      FieldsAreWellPlaced(front, pointer, base);
      var start := Start(fs, false, pointer);
      LeavesAreWellPlaced(last, pointer, base + start);
      PlacedBehind(FieldLeaves(front, false, pointer, base), Leaves(last, pointer, base + start), pointer,
                   base, base + End(front, false, pointer), base + start, base + start + Size(last, pointer));
    }
  }

  lemma FieldIsAligned(fs: seq<Type>, pointer: nat, base: nat)
    requires fs != [] && IsPower(pointer) && forall k :: 0 <= k < |fs| ==> Plain(fs[k])
    requires Largest(fs, pointer) > 0 && base % Largest(fs, pointer) == 0
    ensures var front, last := fs[..|fs| - 1], fs[|fs| - 1];
            && Largest(front, pointer) > 0 && base % Largest(front, pointer) == 0
            && End(front, false, pointer) <= Start(fs, false, pointer)
            && Align(last, pointer) > 0 && (base + Start(fs, false, pointer)) % Align(last, pointer) == 0
  {
    hide IsPower, Plain, AndNot;
    var front, last := fs[..|fs| - 1], fs[|fs| - 1];
    var all, some, a := Largest(fs, pointer), Largest(front, pointer), Align(last, pointer);
    LargestIsPower(fs, pointer);
    LargestIsPower(front, pointer);
    PlainIsRegular(last, pointer);
    SmallerDivides(some, all);
    SmallerDivides(a, all);
    DividesThrough(base, all, some);
    DividesThrough(base, all, a);
    RoundedByPower(End(front, false, pointer), a);
    DividesSum(base, Start(fs, false, pointer), a);
  }

  /** An array of scalars has its n scalars one element size apart from its start to its end. */
  lemma {:induction false} ArrayLeaves(n: nat, e: Type, pointer: nat, base: nat)
    requires !e.Array? && !e.Struct?
    ensures var ls := Leaves(Array(n, e), pointer, base);
      |ls| == n && (forall k :: 0 <= k < n ==> ls[k] == Leaf(base + k * Size(e, pointer), e))
      && (n > 0 ==> ls[n - 1].start + Size(e, pointer) == base + Size(Array(n, e), pointer))
  {
    hide Size;
    ElementStarts(Array(n, e), n, pointer, base);
    ArrayTimes(n, e, pointer);
    if n > 0 {
      OneMore(n - 1, Size(e, pointer));
    }
  }

  lemma {:induction false} ElementStarts(t: Type, n: nat, pointer: nat, base: nat)
    requires t.Array? && !t.element.Array? && !t.element.Struct?
    ensures |ElementLeaves(t, n, pointer, base)| == n
    ensures forall k :: 0 <= k < n ==>
              ElementLeaves(t, n, pointer, base)[k] == Leaf(base + k * Size(t.element, pointer), t.element)
  {
    hide Size;
    if n > 0 {
      ElementStarts(t, n - 1, pointer, base);
    }
  }

  // ---- The 80-bit float ----

  /** Its alignment of 80 is not a power of two: behind a byte it is put at bit 16. */
  lemma ExtendedFloatIsMisaligned()
    ensures Offsets([Integer(8), Float(80)], false, 64) == [0, 16] && 16 % 80 != 0
  {
    assert AndNot(1, 1) == 0 && AndNot(2, 2) == 0;
    assert AndNot(5, 4) == 1;
    assert AndNot(10, 9) == 2;
    assert AndNot(21, 19) == 4;
    assert AndNot(43, 39) == 8;
    assert AndNot(87, 79) == 16;
    SevenOnly();
    var fs := [Integer(8), Float(80)];
    assert fs[..1] == [Integer(8)] && [Integer(8)][..0] == [];
    assert End([], false, 64) == 0;
    assert Start([Integer(8)], false, 64) == 0;
    assert End([Integer(8)], false, 64) == 8;
    assert Start(fs, false, 64) == 16;
    assert Offsets([Integer(8)], false, 64) == [] + [0];
  }

  lemma SevenOnly()
    ensures AndNot(7, 7) == 0
  {
    NothingLeft(7);
  }
}
