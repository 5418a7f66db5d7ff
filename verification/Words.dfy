/**
 Fixed-width integers as they occur in Go and in the BPF machine, with the
 conversions between them written out, and bitwise operators on naturals.
 */
module Words {

  type u16 = n: int | 0 <= n < 0x1_0000
  type u32 = n: int | 0 <= n < 0x1_0000_0000
  type u64 = n: int | 0 <= n < 0x1_0000_0000_0000_0000
  type i32 = n: int | -0x8000_0000 <= n < 0x8000_0000
  type i64 = n: int | -0x8000_0000_0000_0000 <= n < 0x8000_0000_0000_0000

  const MAX_UINT32: int := 0xFFFF_FFFF

  /** Go's conversion int32(n): keep the low 32 bits, read as two's complement. */
  function ToInt32(n: i64): (r: i32)
    ensures (n - r) % 0x1_0000_0000 == 0
  {
    var low := n % 0x1_0000_0000;
    if low < 0x8000_0000 then low else low - 0x1_0000_0000
  }

  /** A 32-bit immediate widened to 64 bits with its sign. */
  function SignExtend(i: i32): (r: u64)
    ensures (r - i) % 0x1_0000_0000_0000_0000 == 0
  {
    if i >= 0 then i else i + 0x1_0000_0000_0000_0000
  }

  /** The low 32 bits of a 64-bit word. */
  function Low32(n: u64): u32 {
    n % 0x1_0000_0000
  }

  /** A 32-bit immediate as the unsigned word an ALU instruction of the 32-bit class sees. */
  function AsWord(i: i32): u32 {
    if i >= 0 then i else i + 0x1_0000_0000
  }

  function BitAnd(a: nat, b: nat): (r: nat)
    ensures r <= a && r <= b
  {
    if a == 0 || b == 0 then 0
    else (if a % 2 == 1 && b % 2 == 1 then 1 else 0) + 2 * BitAnd(a / 2, b / 2)
  }

  function BitOr(a: nat, b: nat): (r: nat)
    decreases a + b
  {
    if a == 0 && b == 0 then 0
    else (if a % 2 == 1 || b % 2 == 1 then 1 else 0) + 2 * BitOr(a / 2, b / 2)
  }

  function PowerOfTwo(n: nat): (p: nat)
    ensures p > 0
  {
    if n == 0 then 1 else 2 * PowerOfTwo(n - 1)
  }

  function ShiftRight(x: nat, n: nat): (r: nat)
    ensures r <= x
  {
    DivisionShrinks(x, PowerOfTwo(n));
    x / PowerOfTwo(n)
  }

  lemma DivisionShrinks(x: nat, p: nat)
    requires p > 0
    ensures 0 <= x / p <= x
  {
    MultipleGrows(p, x / p);
  }

  lemma {:induction false} MultipleGrows(p: nat, q: nat)
    requires p > 0
    ensures p * q >= q
    decreases p
  {
    if p > 1 {
      MultipleGrows(p - 1, q);
    }
  }

  /** A shift by sixteen is the high half of a word. */
  lemma ShiftRight16(x: nat, n: nat)
    requires n == 16
    ensures ShiftRight(x, n) == x / 0x1_0000
  {
    TimesSixteen(n - 4);
    TimesSixteen(n - 8);
    TimesSixteen(n - 12);
    TimesSixteen(n - 16);
  }

  lemma TimesSixteen(n: nat)
    ensures PowerOfTwo(n + 4) == 16 * PowerOfTwo(n)
  {
    assert PowerOfTwo(n + 4) == 2 * PowerOfTwo(n + 3) == 4 * PowerOfTwo(n + 2);
    assert PowerOfTwo(n + 2) == 2 * PowerOfTwo(n + 1) == 4 * PowerOfTwo(n);
  }

  /** Whether the bit of weight `w` (a power of two) is set in `a`. */
  predicate HasBit(a: nat, w: nat)
    requires w > 0
  {
    (a / w) % 2 == 1
  }

  /** Three-bit masks: the conjunction is non-zero exactly when some bit is set on both sides. */
  lemma BitAndMeets(a: nat, mask: nat)
    requires mask < 8
    ensures BitAnd(a, mask) != 0 <==>
            (HasBit(a, 1) && HasBit(mask, 1)) || (HasBit(a, 2) && HasBit(mask, 2)) || (HasBit(a, 4) && HasBit(mask, 4))
  {
    BitAndUnfold(a, mask);
    BitAndUnfold(a / 2, mask / 2);
    BitAndUnfold(a / 2 / 2, mask / 2 / 2);
    assert a / 2 / 2 == a / 4 && mask / 2 / 2 == mask / 4;
    assert mask / 2 / 2 / 2 == 0;
  }

  lemma BitAndUnfold(a: nat, b: nat)
    ensures BitAnd(a, b) != 0 <==> (a % 2 == 1 && b % 2 == 1) || BitAnd(a / 2, b / 2) != 0
  {
  }

  /** Or-ing a single bit into a three-bit mask adds its weight unless it is already there. */
  lemma BitOrSets(mask: nat, w: nat)
    requires mask < 8 && w in {1, 2, 4}
    ensures BitOr(mask, w) == if HasBit(mask, w) then mask else mask + w
  {
    assert BitOr(0, 0) == 0;
    assert mask in {0, 1, 2, 3, 4, 5, 6, 7};
  }
}
