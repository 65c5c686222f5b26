/** The colour of a name: a 32-bit string hash, reduced to 24 bits with one bit cleared. */
module Colors {
  import opened Wrappers

  const TWO_24 := 0x100_0000
  const TWO_32 := 0x1_0000_0000

  type u32 = n: int | 0 <= n < TWO_32

  function WrappingAdd(a: u32, b: u32): u32 {
    (a + b) % TWO_32
  }

  function WrappingSub(a: u32, b: u32): u32 {
    (a - b) % TWO_32
  }

  function ShiftLeft5(a: u32): u32 {
    a * 32 % TWO_32
  }

  /** `x & 0xFF7FFF` for 24-bit `x`: all bits but the one worth 0x8000. */
  function AndMask(x: u32): u32
    requires x < TWO_24
  {
    x / 0x1_0000 * 0x1_0000 + x % 0x8000
  }

  /** The bytes as the digits of a number in base 31, of any size. */
  function Polynomial(s: seq<byte>): nat {
    if s == [] then 0 else Polynomial(s[..|s| - 1]) * 31 + s[|s| - 1]
  }

  /** One step of the 32-bit loop is one step of the polynomial, modulo 2^32. */
  lemma {:induction false} HashStep(hash: u32, code: byte, whole: nat)
    requires hash == whole % TWO_32
    ensures WrappingAdd(code, WrappingSub(ShiftLeft5(hash), hash)) == (whole * 31 + code) % TWO_32
  {
    var q := whole / TWO_32;
    var lost := hash * 32 / TWO_32;
    var diff := hash * 32 - lost * TWO_32 - hash;
    assert ShiftLeft5(hash) == hash * 32 - lost * TWO_32;
    var under := diff / TWO_32;
    assert WrappingSub(ShiftLeft5(hash), hash) == diff - under * TWO_32;
    var sum := code + (diff - under * TWO_32);
    assert whole * 31 + code == sum + (q * 31 + lost + under) * TWO_32;
    SameRemainder(sum, q * 31 + lost + under);
  }

  lemma {:induction false} SameRemainder(a: int, k: int)
    ensures (a + k * TWO_32) % TWO_32 == a % TWO_32
  {
  }

  lemma {:induction false} RemainderOfRemainder(n: nat)
    ensures n % TWO_32 % TWO_24 == n % TWO_24
  {
    var q, r := n / TWO_32, n % TWO_32;
    assert n == r + q * 256 * TWO_24;
  }

  /** The low 24 bits of the polynomial with bit 15 cleared, below the alpha byte. */
  method Str2Color(s: seq<byte>, alpha: byte) returns (color: u32)
    ensures var v := Polynomial(s) % TWO_24;
            color == alpha * TWO_24 + v - (if v / 0x8000 % 2 == 1 then 0x8000 else 0)
  {
    var hash: u32 := 0;
    for i := 0 to |s|
      invariant hash == Polynomial(s[..i]) % TWO_32
    {
      HashStep(hash, s[i], Polynomial(s[..i]));
      assert s[..i + 1][..i] == s[..i];
      hash := WrappingAdd(s[i], WrappingSub(ShiftLeft5(hash), hash));
    }
    assert s[..|s|] == s;
    RemainderOfRemainder(Polynomial(s));
    hash := hash % TWO_24;
    var rgb := AndMask(hash);
    return alpha * TWO_24 + rgb;
  }
}
