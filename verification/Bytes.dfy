// Little-endian fields of packed tables in memory, as boot32.c and mm.c read them through packed structs.
module Bytes {
  type Byte = x: int | 0 <= x < 256

  function Pow256(n: nat): (r: nat)
    ensures r > 0
  {
    if n == 0 then 1 else 256 * Pow256(n - 1)
  }

  // The n-byte field at offset p.
  function Le(mem: seq<Byte>, p: nat, n: nat): nat
    requires p + n <= |mem|
    decreases n
  {
    if n == 0 then 0 else mem[p] + 256 * Le(mem, p + 1, n - 1)
  }

  function ToLe(x: nat, n: nat): (r: seq<Byte>)
    ensures |r| == n
  {
    if n == 0 then [] else [x % 256] + ToLe(x / 256, n - 1)
  }

  lemma {:induction false} LeToLe(x: nat, n: nat, mem: seq<Byte>, p: nat)
    requires x < Pow256(n) && p + n <= |mem| && mem[p..p + n] == ToLe(x, n)
    ensures Le(mem, p, n) == x
    decreases n
  {
    if n > 0 {
      assert mem[p] == mem[p..p + n][0] == x % 256;
      assert mem[p + 1..p + 1 + (n - 1)] == mem[p..p + n][1..] == ToLe(x / 256, n - 1);
      LeToLe(x / 256, n - 1, mem, p + 1);
    }
  }

  // The first byte is the least significant one.
  lemma LittleEndian(mem: seq<Byte>, p: nat)
    requires p + 8 <= |mem|
    ensures var a: nat, b: nat, c: nat, d: nat := mem[p], mem[p + 1], mem[p + 2], mem[p + 3];
            Le(mem, p, 4) == a + 0x100 * b + 0x1_0000 * c + 0x100_0000 * d
    ensures Le(mem, p, 8) == Le(mem, p, 4) + 0x1_0000_0000 * Le(mem, p + 4, 4)
  {
    FourBytes(mem, p, 4);
    FourBytes(mem, p, 0);
    FourBytes(mem, p + 4, 0);
    assert Le(mem, p + 8, 0) == 0;
  }

  lemma FourBytes(mem: seq<Byte>, p: nat, n: nat)
    requires p + 4 + n <= |mem|
    ensures var a: nat, b: nat, c: nat, d: nat := mem[p], mem[p + 1], mem[p + 2], mem[p + 3];
            Le(mem, p, n + 4) == a + 0x100 * b + 0x1_0000 * c + 0x100_0000 * d + 0x1_0000_0000 * Le(mem, p + 4, n)
  {
    assert Le(mem, p + 2, n + 2) == mem[p + 2] + 256 * Le(mem, p + 3, n + 1);
    assert Le(mem, p + 1, n + 3) == mem[p + 1] + 256 * Le(mem, p + 2, n + 2);
  }

  lemma SubSlice(mem: seq<Byte>, p: nat, part: seq<Byte>, a: nat, b: nat)
    requires p + |part| <= |mem| && mem[p..p + |part|] == part && a <= b <= |part|
    ensures mem[p + a..p + b] == part[a..b]
  {
    assert forall k: nat | a <= k < b :: mem[p + k] == mem[p..p + |part|][k] == part[k];
  }
}
