/** What several parts share: bytes, key positions, byte images, division with remainder. */
module Basics {

  type Byte = b: int | 0 <= b < 256

  datatype KeyPos = KeyPos(row: nat, col: nat)

  type Keycode = k: int | 0 <= k < 0x1_0000

  // ---------- byte images ----------

  type Image = seq<Byte>

  /** The image with the bytes from addr on replaced. */
  function Put(m: Image, addr: nat, bytes: seq<Byte>): (r: Image)
    requires addr + |bytes| <= |m|
    ensures |r| == |m|
  {
    m[..addr] + bytes + m[addr + |bytes|..]
  }

  function Get(m: Image, addr: nat, n: nat): (r: seq<Byte>)
    requires addr + n <= |m|
    ensures |r| == n
  {
    m[addr..addr + n]
  }

  lemma PutAt(m: Image, addr: nat, bytes: seq<Byte>, i: nat)
    requires addr + |bytes| <= |m| && i < |m|
    ensures Put(m, addr, bytes)[i] == if addr <= i < addr + |bytes| then bytes[i - addr] else m[i]
  {
  }

  predicate Apart(a: nat, n: nat, b: nat, m: nat) { a + n <= b || b + m <= a }

  lemma GetPut(m: Image, a: nat, bytes: seq<Byte>, b: nat, n: nat)
    requires a + |bytes| <= |m| && b + n <= |m|
    ensures a == b && n == |bytes| ==> Get(Put(m, a, bytes), b, n) == bytes
    ensures Apart(a, |bytes|, b, n) ==> Get(Put(m, a, bytes), b, n) == Get(m, b, n)
  {
  }

  // ---------- division with remainder ----------

  lemma AtLeastOnce(d: nat, k: nat)
    requires k >= 1
    ensures d * k >= d
  {
  }

  lemma Remainder(x: nat, d: nat, q: nat, r: nat)
    requires d > 0 && x == d * q + r && r < d
    ensures x % d == r
  {
    var k := x / d - q;
    assert d * k == r - x % d by {
      assert x == d * (x / d) + x % d;
      assert d * k == d * (x / d) - d * q;
    }
    if k >= 1 { AtLeastOnce(d, k); } else if k <= -1 { AtLeastOnce(d, -k); }
  }
}
