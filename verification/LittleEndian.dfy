/** 32-bit numbers as four bytes, the least significant first. */
module LittleEndian {
  import opened Limbs

  function Le32(s: seq<nat>, i: nat): nat
    requires i + 4 <= |s|
  {
    s[i] + 0x100 * s[i + 1] + 0x10000 * s[i + 2] + 0x1000000 * s[i + 3]
  }

  function ToLe32(n: nat): (s: seq<nat>)
    ensures |s| == 4 && forall i :: 0 <= i < 4 ==> s[i] < 0x100
  {
    [n % 0x100, n / 0x100 % 0x100, n / 0x10000 % 0x100, n / 0x1000000 % 0x100]
  }

  /** Reading four bytes gives what was written, up to 32 bits. */
  lemma Le32Inverse(s: seq<nat>, i: nat, n: nat)
    requires i + 4 <= |s| && s[i..i + 4] == ToLe32(n)
    ensures Le32(s, i) == n % BASE
  {
    var b := s[i..i + 4];
    assert s[i] == b[0] && s[i + 1] == b[1] && s[i + 2] == b[2] && s[i + 3] == b[3];
    FourBytes(n);
  }

  lemma FourBytes(n: nat)
    ensures n % BASE == n % 0x100 + 0x100 * (n / 0x100 % 0x100) + 0x10000 * (n / 0x10000 % 0x100)
                        + 0x1000000 * (n / 0x1000000 % 0x100)
  {
    var a, r0 := n / 0x100, n % 0x100;
    var b, r1 := a / 0x100, a % 0x100;
    var c, r2 := b / 0x100, b % 0x100;
    var d, r3 := c / 0x100, c % 0x100;
    ModUnique(r0 + 0x100 * r1, b, 0x10000, n);
    ModUnique(r0 + 0x100 * r1 + 0x10000 * r2, c, 0x1000000, n);
    ModUnique(r0 + 0x100 * r1 + 0x10000 * r2 + 0x1000000 * r3, d, BASE, n);
  }
}
