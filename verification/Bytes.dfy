/** Bytes, fixed-width unsigned integers in little-endian order, and the two buffer
    operations every encoder of the client uses: Go's copy into a slice, and slicing. */
module Bytes {
  type byte = x: int | 0 <= x < 256
  type u8 = byte
  type u16 = x: int | 0 <= x < 0x1_0000
  type u32 = x: int | 0 <= x < 0x1_0000_0000
  type u64 = x: int | 0 <= x < 0x1_0000_0000_0000_0000

  /** A Go string is a sequence of bytes. */
  type GoString = seq<byte>

  const U32_MODULUS: nat := 0x1_0000_0000

  /** uint32 arithmetic: the value wraps. */
  function Wrap32(n: int): (r: u32)
    ensures 0 <= n < U32_MODULUS ==> r == n
  {
    n % 0x1_0000_0000
  }

  function Min(a: nat, b: nat): nat { if a <= b then a else b }

  // ---------- little-endian integers ----------

  function Pow256(k: nat): (p: nat)
    ensures p >= 1
  {
    if k == 0 then 1 else 256 * Pow256(k - 1)
  }

  /** The k low-order bytes of n in two's complement, least significant first. */
  function PutLE(n: int, k: nat): (bs: seq<byte>)
    ensures |bs| == k
    decreases k
  {
    if k == 0 then [] else [n % 256] + PutLE(n / 256, k - 1)
  }

  function GetLE(bs: seq<byte>): (n: nat)
    ensures n < Pow256(|bs|)
  {
    if bs == [] then 0 else bs[0] + 256 * GetLE(bs[1..])
  }

  lemma {:induction false} GetPut(n: nat, k: nat)
    requires n < Pow256(k)
    ensures GetLE(PutLE(n, k)) == n
    decreases k
  {
    if k == 0 {
    } else {
      GetPut(n / 256, k - 1);
      assert PutLE(n, k)[1..] == PutLE(n / 256, k - 1);
    }
  }

  lemma {:induction false} PutGet(bs: seq<byte>)
    ensures PutLE(GetLE(bs), |bs|) == bs
  {
    if bs == [] {
    } else {
      PutGet(bs[1..]);
      assert GetLE(bs) / 256 == GetLE(bs[1..]);
    }
  }

  lemma Powers()
    ensures Pow256(1) == 0x100
    ensures Pow256(2) == 0x1_0000
    ensures Pow256(4) == 0x1_0000_0000
    ensures Pow256(8) == 0x1_0000_0000_0000_0000
  {
    assert Pow256(1) == 0x100;
    assert Pow256(2) == 0x1_0000;
    assert Pow256(3) == 0x100_0000;
    assert Pow256(4) == 0x1_0000_0000;
    assert Pow256(5) == 0x100_0000_0000;
    assert Pow256(6) == 0x1_0000_0000_0000;
    assert Pow256(7) == 0x100_0000_0000_0000;
  }

  function Get16(bs: seq<byte>): u16
    requires |bs| == 2
  {
    Powers();
    GetLE(bs)
  }

  function Get32(bs: seq<byte>): u32
    requires |bs| == 4
  {
    Powers();
    GetLE(bs)
  }

  function Get64(bs: seq<byte>): u64
    requires |bs| == 8
  {
    Powers();
    GetLE(bs)
  }

  function Put16(n: u16): (bs: seq<byte>)
    ensures |bs| == 2 && Get16(bs) == n
  {
    Powers();
    GetPut(n, 2);
    PutLE(n, 2)
  }

  function Put32(n: u32): (bs: seq<byte>)
    ensures |bs| == 4 && Get32(bs) == n
  {
    Powers();
    GetPut(n, 4);
    PutLE(n, 4)
  }

  function Put64(n: u64): (bs: seq<byte>)
    ensures |bs| == 8 && Get64(bs) == n
  {
    Powers();
    GetPut(n, 8);
    PutLE(n, 8)
  }

  lemma PutGet16(bs: seq<byte>)
    requires |bs| == 2
    ensures Put16(Get16(bs)) == bs
  {
    PutGet(bs);
  }

  lemma PutGet32(bs: seq<byte>)
    requires |bs| == 4
    ensures Put32(Get32(bs)) == bs
  {
    PutGet(bs);
  }

  lemma PutGet64(bs: seq<byte>)
    requires |bs| == 8
    ensures Put64(Get64(bs)) == bs
  {
    PutGet(bs);
  }

  /** The least significant byte comes first. */
  lemma LittleEndian(bs: seq<byte>)
    ensures |bs| == 2 ==> Get16(bs) == bs[0] as int + 0x100 * (bs[1] as int)
    ensures |bs| == 4 ==>
              Get32(bs)
              == bs[0] as int + 0x100 * (bs[1] as int) + 0x1_0000 * (bs[2] as int) + 0x100_0000 * (bs[3] as int)
    ensures |bs| == 8 ==> Get64(bs) == Get32(bs[..4]) as int + 0x1_0000_0000 * (Get32(bs[4..]) as int)
  {
    if |bs| == 2 {
      Unfold(bs);
      Unfold(bs[1..]);
    } else if |bs| == 4 {
      FourBytes(bs);
    } else if |bs| == 8 {
      Unfold(bs);
      Unfold(bs[1..]);
      Unfold(bs[2..]);
      Unfold(bs[3..]);
      FourBytes(bs[..4]);
      assert bs[1..][1..] == bs[2..] && bs[2..][1..] == bs[3..] && bs[3..][1..] == bs[4..];
    }
  }

  lemma FourBytes(bs: seq<byte>)
    requires |bs| == 4
    ensures Get32(bs) == bs[0] as int + 0x100 * (bs[1] as int) + 0x1_0000 * (bs[2] as int) + 0x100_0000 * (bs[3] as int)
  {
    Unfold(bs);
    Unfold(bs[1..]);
    Unfold(bs[2..]);
    Unfold(bs[3..]);
    assert bs[1..][1..] == bs[2..] && bs[2..][1..] == bs[3..] && bs[3..][1..] == [];
  }

  lemma Unfold(bs: seq<byte>)
    requires bs != []
    ensures GetLE(bs) == bs[0] + 256 * GetLE(bs[1..])
  {
  }

  // ---------- slices of concatenations ----------

  lemma SliceJoin(s: seq<byte>, i: nat, j: nat, k: nat)
    requires i <= j <= k <= |s|
    ensures s[i..j] + s[j..k] == s[i..k]
  {
  }

  // ---------- buffers ----------

  function Zeros(n: nat): (z: seq<byte>)
    ensures |z| == n && forall i :: 0 <= i < n ==> z[i] == 0
  {
    seq(n, i => 0)
  }

  /** The bytes of base after Go's copy(base[off:], src): as many bytes of src as fit. */
  function Overlay(base: seq<byte>, off: nat, src: seq<byte>): (r: seq<byte>)
    requires off <= |base|
    ensures |r| == |base|
    ensures forall i :: 0 <= i < |base| ==>
              r[i] == if off <= i < off + |src| then src[i - off] else base[i]
  {
    var n := Min(|src|, |base| - off);
    base[..off] + src[..n] + base[off + n..]
  }

  /** copy(buf[off:], src) on a buffer updated in place. */
  method CopyInto(buf: array<byte>, off: nat, src: seq<byte>)
    requires off <= buf.Length
    modifies buf
    ensures buf[..] == Overlay(old(buf[..]), off, src)
    ensures off + |src| <= buf.Length ==> buf[..off + |src|] == old(buf[..off]) + src
  {
    var n := Min(|src|, buf.Length - off);
    var i := 0;
    while i < n
      invariant 0 <= i <= n
      invariant forall j :: 0 <= j < buf.Length ==>
                  buf[j] == if off <= j < off + i then src[j - off] else old(buf[j])
    {
      buf[off + i] := src[i];
      i := i + 1;
    }
    assert forall j :: 0 <= j < buf.Length ==> buf[..][j] == Overlay(old(buf[..]), off, src)[j];
  }

  /** A fresh zeroed buffer: make([]byte, n). */
  method MakeBuffer(n: nat) returns (buf: array<byte>)
    ensures fresh(buf) && buf.Length == n
    ensures buf[..] == Zeros(n)
  {
    buf := new byte[n](i => 0);
    assert forall j :: 0 <= j < n ==> buf[..][j] == Zeros(n)[j];
  }
}
