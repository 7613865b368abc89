/** The struct type object, whose field offsets are computed once and kept. */
module StructTypes {
  import opened TypeLayout

  class IRStructType {
    var fields: seq<Type>
    var packed: bool
    var computed: bool
    var offsets: seq<nat>
    /** The target and the fields that the kept offsets belong to. */
    ghost var pointerThen: nat
    ghost var fieldsThen: seq<Type>

    ghost predicate Valid()
      reads this
    {
      if computed then |fieldsThen| == |fields| && offsets == Offsets(fieldsThen, packed, pointerThen)
      else offsets == []
    }

    constructor (fs: seq<Type>, p: bool)
      ensures Valid() && !computed && fields == fs && packed == p
    {
      fields, packed, computed, offsets, pointerThen, fieldsThen := fs, p, false, [], 0, fs;
    }

    method SetBody(fs: seq<Type>, p: bool)
      modifies this
      ensures Valid() && !computed && fields == fs && packed == p
    {
      fields, packed, computed, offsets := fs, p, false, [];
    }

    /** What this object sees of another body for a struct that is one of its fields. */
    method FieldChanges(k: nat, t: Type)
      requires Valid() && k < |fields| && fields[k].Struct? && t.Struct?
      modifies this`fields
      ensures Valid() && fields == old(fields)[k := t]
    {
      fields := fields[k := t];
    }

    /** The offset for the target and the fields at the first question since the body was set. */
    method GetFieldOffset(i: nat, pointer: nat) returns (offset: nat)
      requires Valid() && i < |fields|
      modifies this`computed, this`offsets, this`pointerThen, this`fieldsThen
      ensures Valid() && computed
      ensures pointerThen == if old(computed) then old(pointerThen) else pointer
      ensures fieldsThen == if old(computed) then old(fieldsThen) else fields
      ensures offset == Offsets(fieldsThen, packed, pointerThen)[i]
    {
      if !computed {
        var end := 0;
        for k := 0 to |fields|
          invariant !computed && offsets == Offsets(fields[..k], packed, pointer)
          invariant end == End(fields[..k], packed, pointer)
        {
          assert fields[..k + 1][..k] == fields[..k];
          var size := Size(fields[k], pointer);
          if packed {
            offsets := offsets + [end];
            end := end + size;
          } else {
            var align := Align(fields[k], pointer);
            end := Rounded(end, align);
            offsets := offsets + [end];
            end := end + size;
          }
        }
        assert fields[..|fields|] == fields;
        computed := true;
        pointerThen, fieldsThen := pointer, fields;
      }
      return offsets[i];
    }

    method GetAlignInBits(pointer: nat) returns (align: nat)
      ensures align == Align(Struct(fields, packed), pointer)
    {
      if packed {
        return 8;
      }
      align := 8;
      for k := 0 to |fields|
        invariant align == Largest(fields[..k], pointer)
      {
        assert fields[..k + 1][..k] == fields[..k];
        var a := Align(fields[k], pointer);
        if a > align {
          align := a;
        }
      }
      assert fields[..|fields|] == fields;
    }

    method GetSizeInBits(pointer: nat) returns (size: nat)
      ensures size == Size(Struct(fields, packed), pointer)
    {
      if fields == [] {
        return 0;
      }
      size := 0;
      for k := 0 to |fields|
        invariant size == End(fields[..k], packed, pointer)
      {
        assert fields[..k + 1][..k] == fields[..k];
        var s := Size(fields[k], pointer);
        if packed {
          size := size + s;
        } else {
          var align := Align(fields[k], pointer);
          size := Rounded(size, align);
          size := size + s;
        }
      }
      assert fields[..|fields|] == fields;
      if !packed {
        var align := GetAlignInBits(pointer);
        size := Rounded(size, align);
      }
    }
  }

  // ---- When kept offsets are right ----

  /** Where a field goes that comes behind one ending here. */
  function Behind(end: nat, t: Type, packed: bool, pointer: nat): nat {
    if packed then end else Rounded(end, Align(t, pointer))
  }

  /** Each field goes where the target puts it behind the one before. */
  predicate Follows(os: seq<nat>, fs: seq<Type>, packed: bool, pointer: nat) {
    |os| == |fs| && forall k | 0 <= k < |fs| :: FollowsAt(os, fs, packed, pointer, k)
  }

  predicate FollowsAt(os: seq<nat>, fs: seq<Type>, packed: bool, pointer: nat, k: nat)
    requires k < |fs| == |os|
  {
    os[k] == Behind(if k == 0 then 0 else os[k - 1] + Size(fs[k - 1], pointer), fs[k], packed, pointer)
  }

  lemma LastOffset(fs: seq<Type>, packed: bool, pointer: nat)
    requires fs != []
    ensures Offsets(fs, packed, pointer)[|fs| - 1] == Start(fs, packed, pointer)
    ensures Offsets(fs, packed, pointer)[..|fs| - 1] == Offsets(fs[..|fs| - 1], packed, pointer)
    ensures End(fs, packed, pointer) == Start(fs, packed, pointer) + Size(fs[|fs| - 1], pointer)
  {
  }

  lemma FollowsLonger(os: seq<nat>, fs: seq<Type>, packed: bool, pointer: nat, n: nat, k: nat)
    requires k < n <= |fs| == |os| && Follows(os[..n], fs[..n], packed, pointer)
    ensures FollowsAt(os, fs, packed, pointer, k)
  {
    hide Size, Behind;
    assert FollowsAt(os[..n], fs[..n], packed, pointer, k);
    assert os[..n][k] == os[k] && fs[..n][k] == fs[k];
    assert k > 0 ==> os[..n][k - 1] == os[k - 1] && fs[..n][k - 1] == fs[k - 1];
  }

  lemma LastFollows(fs: seq<Type>, packed: bool, pointer: nat)
    requires fs != []
    ensures FollowsAt(Offsets(fs, packed, pointer), fs, packed, pointer, |fs| - 1)
  {
    var n, os := |fs| - 1, Offsets(fs, packed, pointer);
    LastOffset(fs, packed, pointer);
    if n > 0 {
      LastOffset(fs[..n], packed, pointer);
      assert os[..n][n - 1] == os[n - 1];
    }
  }

  lemma {:induction false} OffsetsFollow(fs: seq<Type>, packed: bool, pointer: nat)
    ensures Follows(Offsets(fs, packed, pointer), fs, packed, pointer)
  {
    if fs != [] {
      var n, os := |fs| - 1, Offsets(fs, packed, pointer);
      OffsetsFollow(fs[..n], packed, pointer);
      LastOffset(fs, packed, pointer);
      LastFollows(fs, packed, pointer);
      hide Offsets, FollowsAt;
      forall k | 0 <= k < n ensures FollowsAt(os, fs, packed, pointer, k) {
        FollowsLonger(os, fs, packed, pointer, n, k);
      }
    }
  }

  /** That determines them. */
  lemma FollowsIff(os: seq<nat>, fs: seq<Type>, packed: bool, pointer: nat)
    ensures Follows(os, fs, packed, pointer) <==> os == Offsets(fs, packed, pointer)
  {
    OffsetsFollow(fs, packed, pointer);
    if Follows(os, fs, packed, pointer) {
      var right := Offsets(fs, packed, pointer);
      hide Offsets, Follows;
      for k := 0 to |fs|
        invariant forall j | 0 <= j < k :: os[j] == right[j]
      {
        SameNext(os, right, fs, packed, pointer, k);
      }
    }
  }

  lemma SameNext(os: seq<nat>, right: seq<nat>, fs: seq<Type>, packed: bool, pointer: nat, k: nat)
    requires Follows(os, fs, packed, pointer) && Follows(right, fs, packed, pointer)
    requires k < |fs| && (k > 0 ==> os[k - 1] == right[k - 1])
    ensures os[k] == right[k]
  {
    hide Size, Behind;
    assert FollowsAt(os, fs, packed, pointer, k) && FollowsAt(right, fs, packed, pointer, k);
  }

  /** Offsets kept for one target and body are right for another exactly if each of them follows the one before. */
  lemma KeptAreRightIff(fs: seq<Type>, first: nat, gs: seq<Type>, second: nat, packed: bool)
    ensures Offsets(fs, packed, first) == Offsets(gs, packed, second)
       <==> Follows(Offsets(fs, packed, first), gs, packed, second)
  {
    FollowsIff(Offsets(fs, packed, first), gs, packed, second);
  }

  /** In packed structs, exactly if all fields but the last have the same sizes. */
  lemma PackedAreRightIff(fs: seq<Type>, first: nat, gs: seq<Type>, second: nat)
    requires |fs| == |gs|
    ensures Offsets(fs, true, first) == Offsets(gs, true, second)
       <==> forall k | 0 <= k < |fs| - 1 :: Size(fs[k], first) == Size(gs[k], second)
  {
    var os, right := Offsets(fs, true, first), Offsets(gs, true, second);
    OffsetsFollow(fs, true, first);
    OffsetsFollow(gs, true, second);
    forall k | 0 <= k < |fs| - 1 && os == right ensures Size(fs[k], first) == Size(gs[k], second) {
      assert FollowsAt(os, fs, true, first, k + 1) && FollowsAt(right, gs, true, second, k + 1);
    }
    if forall k | 0 <= k < |fs| - 1 :: Size(fs[k], first) == Size(gs[k], second) {
      forall k | 0 <= k < |fs| ensures FollowsAt(os, gs, true, second, k) {
        assert FollowsAt(os, fs, true, first, k);
      }
      FollowsIff(os, gs, true, second);
    }
  }

  /** So another target makes no difference to integers that fit into the pointers of both. */
  lemma SmallIntegersAreRight(fs: seq<Type>, packed: bool, first: nat, second: nat)
    requires forall t <- fs :: t.Integer? && t.width <= first && t.width <= second
    ensures Offsets(fs, packed, first) == Offsets(fs, packed, second)
  {
    var os := Offsets(fs, packed, first);
    OffsetsFollow(fs, packed, first);
    forall k | 0 <= k < |fs| ensures FollowsAt(os, fs, packed, second, k) {
      assert FollowsAt(os, fs, packed, first, k);
      assert fs[k] in fs && (k > 0 ==> fs[k - 1] in fs);
    }
    FollowsIff(os, fs, packed, second);
  }

  /** When a struct that is a field gets another body, the kept offsets stay right exactly if that field and the one
    * behind it still go where they were. */
  lemma OtherBodyIsRightIff(fs: seq<Type>, packed: bool, pointer: nat, k: nat, t: Type)
    requires k < |fs|
    ensures Offsets(fs, packed, pointer) == Offsets(fs[k := t], packed, pointer)
       <==> FollowsAt(Offsets(fs, packed, pointer), fs[k := t], packed, pointer, k)
            && (k + 1 < |fs| ==> FollowsAt(Offsets(fs, packed, pointer), fs[k := t], packed, pointer, k + 1))
  {
    var os, gs := Offsets(fs, packed, pointer), fs[k := t];
    OffsetsFollow(fs, packed, pointer);
    FollowsIff(os, gs, packed, pointer);
    forall j | 0 <= j < |fs| && j != k && j != k + 1 ensures FollowsAt(os, gs, packed, pointer, j) {
      assert FollowsAt(os, fs, packed, pointer, j);
    }
  }

  /** A byte packed behind a pointer is at the target's pointer size. */
  lemma PackedBehindPointer(pointer: nat)
    ensures Offsets([Pointer, Integer(8)], true, pointer) == [0, pointer]
  {
    var fs := [Pointer, Integer(8)];
    assert fs[..1] == [Pointer] && [Pointer][..0] == [];
    assert End([], true, pointer) == 0;
    assert Start([Pointer], true, pointer) == 0;
    assert End([Pointer], true, pointer) == pointer;
    assert Offsets([Pointer], true, pointer) == [] + [0];
    assert Offsets(fs, true, pointer) == [0] + [pointer];
  }

  /** Offsets kept for one target are right for another, whatever the fields, only if the two have equal pointers. */
  lemma KeptOffsetsAreRightIff(first: nat, second: nat)
    ensures (forall fs, packed :: Offsets(fs, packed, first) == Offsets(fs, packed, second)) <==> first == second
  {
    if first != second {
      PackedBehindPointer(first);
      PackedBehindPointer(second);
      var fs := [Pointer, Integer(8)];
      assert [0, first][1] != [0, second][1];
      assert Offsets(fs, true, first) != Offsets(fs, true, second);
    }
  }

  /** Asked about a second target, an object answers with the offset of the first. */
  method AskTwice(first: nat, second: nat) returns (offset: nat)
    ensures offset == first
    ensures offset == Offsets([Pointer, Integer(8)], true, second)[1] <==> first == second
  {
    var t := new IRStructType([Pointer, Integer(8)], true);
    var _ := t.GetFieldOffset(1, first);
    offset := t.GetFieldOffset(1, second);
    PackedBehindPointer(first);
    PackedBehindPointer(second);
    ghost var os := Offsets([Pointer, Integer(8)], true, second);
    assert offset == [0, first][1] && os[1] == [0, second][1] == second;
  }

  /** A packed struct of a struct and a byte, the inner one of so many bits. */
  function Outer(width: nat): seq<Type> {
    [Struct([Integer(width)], true), Integer(8)]
  }

  lemma OuterLayout(width: nat, pointer: nat)
    ensures Offsets(Outer(width), true, pointer) == [0, width]
    ensures Size(Struct(Outer(width), true), pointer) == width + 8
  {
    var inner, fs := Struct([Integer(width)], true), Outer(width);
    var os := Offsets(fs, true, pointer);
    assert Size(inner, pointer) == width by {
      LastOffset([Integer(width)], true, pointer);
      assert [Integer(width)][..0] == [];
    }
    OffsetsFollow(fs, true, pointer);
    LastOffset(fs, true, pointer);
    assert FollowsAt(os, fs, true, pointer, 0) && FollowsAt(os, fs, true, pointer, 1);
  }

  /** Asked again after the inner struct has got another body, the outer one gives its new size, but the old offset. */
  method AskAround(pointer: nat) returns (offset: nat, size: nat)
    ensures offset == 8 && size == 40
    ensures Offsets(Outer(32), true, pointer)[1] == 32 && size == Size(Struct(Outer(32), true), pointer)
  {
    var t := new IRStructType(Outer(8), true);
    var _ := t.GetFieldOffset(1, pointer);
    t.FieldChanges(0, Outer(32)[0]);
    assert t.fields == Outer(32);
    OuterLayout(8, pointer);
    OuterLayout(32, pointer);
    offset := t.GetFieldOffset(1, pointer);
    size := t.GetSizeInBits(pointer);
  }
}
