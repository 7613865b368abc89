/** Little-endian encoding of fixed-width unsigned integers, and reading from a byte string that may be too short. */
module LittleEndian {
  import opened Bytes

  /** 256 to the n. */
  function Pow256(n: nat): (p: nat)
    ensures p >= 1
  {
    if n == 0 then 1 else 256 * Pow256(n - 1)
  }

  /** The low n bytes of v, lowest first. */
  function LE(n: nat, v: nat): (s: seq<Byte>)
    ensures |s| == n
  {
    if n == 0 then [] else [v % 256] + LE(n - 1, v / 256)
  }

  function FromLE(s: seq<Byte>): nat {
    if s == [] then 0 else s[0] + 256 * FromLE(s[1..])
  }

  lemma {:induction false} RoundTripLE(n: nat, v: nat)
    requires v < Pow256(n)
    ensures FromLE(LE(n, v)) == v
    decreases n
  {
    if n > 0 {
      assert LE(n, v)[1..] == LE(n - 1, v / 256);
      RoundTripLE(n - 1, v / 256);
    }
  }

  /** What each byte counts. */
  lemma ByteValues(s: seq<Byte>)
    ensures |s| == 2 ==> FromLE(s) == (s[0] as nat) + 0x100 * (s[1] as nat)
    ensures |s| == 4 ==>
      FromLE(s) == (s[0] as nat) + 0x100 * (s[1] as nat) + 0x1_0000 * (s[2] as nat) + 0x100_0000 * (s[3] as nat)
  {
    if |s| == 2 || |s| == 4 {
      var t := s[1..];
      var u := t[1..];
      assert FromLE(s) == s[0] as nat + 0x100 * FromLE(t) && FromLE(t) == t[0] as nat + 0x100 * FromLE(u);
      if |s| == 4 {
        var v := u[1..];
        assert FromLE(u) == u[0] as nat + 0x100 * FromLE(v) && FromLE(v) == v[0] as nat + 0x100 * FromLE(v[1..]);
      }
    }
  }

  lemma Widths()
    ensures Pow256(1) == 0x100 && Pow256(2) == 0x1_0000 && Pow256(4) == 0x1_0000_0000
            && Pow256(8) == 0x1_0000_0000_0000_0000
  {
    assert Pow256(2) == 256 * Pow256(1);
    assert Pow256(3) == 256 * Pow256(2);
    assert Pow256(4) == 256 * Pow256(3);
    assert Pow256(5) == 256 * Pow256(4);
    assert Pow256(6) == 256 * Pow256(5);
    assert Pow256(7) == 256 * Pow256(6);
    assert Pow256(8) == 256 * Pow256(7);
  }

  /** What a reader makes of the front of a byte string, and the bytes behind that; Short if there are too few. */
  datatype Read<+T> = Got(value: T, rest: seq<Byte>) | Short {
    predicate IsFailure() {
      Short?
    }

    function PropagateFailure<U>(): Read<U>
      requires Short?
    {
      Short
    }

    function Extract(): (T, seq<Byte>)
      requires Got?
    {
      (value, rest)
    }
  }

  function ReadLE(n: nat, s: seq<Byte>): (r: Read<nat>)
    ensures r.Got? ==> |r.rest| == |s| - n
  {
    if |s| < n then Short else Got(FromLE(s[..n]), s[n..])
  }

  lemma ReadWritten(n: nat, v: nat, rest: seq<Byte>)
    requires v < Pow256(n)
    ensures ReadLE(n, LE(n, v) + rest) == Got(v, rest)
  {
    var s := LE(n, v) + rest;
    assert s[..n] == LE(n, v) && s[n..] == rest;
    RoundTripLE(n, v);
  }

  /** Appending the bytes of v one by one, lowest first. */
  method WriteLE(out: seq<Byte>, n: nat, v: nat) returns (out': seq<Byte>)
    ensures out' == out + LE(n, v)
  {
    out' := out;
    var left := v;
    for i := 0 to n
      invariant out' + LE(n - i, left) == out + LE(n, v)
    {
      out' := out' + [left % 256];
      left := left / 256;
    }
  }
}
