/** Big-endian byte strings, and fixed-width slices of a message. */
module Bytes {
  import opened Num

  type byte = b: int | 0 <= b < 256

  function Pow256(n: nat): nat {
    if n == 0 then 1 else 256 * Pow256(n - 1)
  }

  /** `to_be_bytes` of an `n`-byte integer. */
  function ToBe(v: nat, n: nat): (r: seq<byte>)
    ensures |r| == n
  {
    if n == 0 then [] else ToBe(v / 256, n - 1) + [v % 256]
  }

  /** `from_be_bytes` */
  function FromBe(s: seq<byte>): nat {
    if s == [] then 0 else FromBe(s[..|s| - 1]) * 256 + s[|s| - 1]
  }

  lemma {:induction false} FromToBe(v: nat, n: nat)
    requires v < Pow256(n)
    ensures FromBe(ToBe(v, n)) == v
  {
    if n > 0 {
      FromToBe(v / 256, n - 1);
      assert ToBe(v, n)[..n - 1] == ToBe(v / 256, n - 1);
    }
  }

  lemma {:induction false} ToFromBe(s: seq<byte>)
    ensures FromBe(s) < Pow256(|s|) && ToBe(FromBe(s), |s|) == s
    decreases |s|
  {
    if s != [] {
      var front := s[..|s| - 1];
      ToFromBe(front);
      assert s == front + [s[|s| - 1]];
    }
  }

  lemma ShiftByte(x: nat, p: nat, y: nat, z: nat)
    ensures (x * p + y) * 256 + z == x * (256 * p) + (y * 256 + z)
  {
  }

  /** The first byte is the most significant one. */
  lemma {:induction false} FirstByte(s: seq<byte>)
    requires s != []
    ensures FromBe(s) == s[0] * Pow256(|s| - 1) + FromBe(s[1..])
    decreases |s|
  {
    var n := |s| - 1;
    if n == 0 {
      assert s[..0] == [] && s[1..] == [];
    } else {
      var t := s[..n];
      FirstByte(t);
      assert s[1..][..n - 1] == t[1..] && s[1..][n - 1] == s[n];
      ShiftByte(s[0], Pow256(n - 1), FromBe(t[1..]), s[n]);
    }
  }

  lemma Widths()
    ensures Pow256(4) == 0x1_0000_0000 && Pow256(8) == U64_MAX + 1
  {
    assert Pow256(4) == 256 * (256 * (256 * (256 * Pow256(0))));
    assert Pow256(8) == 256 * (256 * (256 * (256 * Pow256(4))));
  }

  /** `&message[from..to]`, which panics beyond the end. */
  function Slice(message: seq<byte>, from: nat, to: nat): (r: Option<seq<byte>>)
    requires from <= to
    ensures r.Some? ==> |r.value| == to - from
  {
    if to <= |message| then Some(message[from..to]) else None
  }

  /** The `to - from` bytes at `from` as an integer. */
  function ReadBe(message: seq<byte>, from: nat, to: nat): Option<nat>
    requires from <= to
  {
    var s := Slice(message, from, to);
    if s.None? then None else Some(FromBe(s.value))
  }

  /** `a.copy_from_slice(s)` */
  method CopyFromSlice(a: array<byte>, s: seq<byte>)
    requires a.Length == |s|
    modifies a
    ensures a[..] == s
  {
    forall i | 0 <= i < |s| {
      a[i] := s[i];
    }
  }

  /** Copies a slice into a local array; None is the panic of a slice beyond the end. */
  method ReadArray(message: seq<byte>, from: nat, to: nat) returns (r: Option<seq<byte>>)
    requires from <= to
    ensures r == Slice(message, from, to)
  {
    var a := new byte[to - from](_ => 0);
    if |message| < to {
      return None;
    }
    CopyFromSlice(a, message[from..to]);
    return Some(a[..]);
  }
}
