/** Machine integers and result types shared by the model.
    Unsigned and signed widths are subset types of the unbounded integers; every place
    where the program's arithmetic can wrap says so with an explicit `%`. */
module Numbers {
  const U16_LIMIT := 0x1_0000
  const U32_LIMIT := 0x1_0000_0000
  const U64_LIMIT := 0x1_0000_0000_0000_0000
  const I64_MAX := 0x7FFF_FFFF_FFFF_FFFF

  type u8 = x: int | 0 <= x < 0x100
  type u16 = x: int | 0 <= x < 0x1_0000
  type u32 = x: int | 0 <= x < 0x1_0000_0000
  type u64 = x: int | 0 <= x < 0x1_0000_0000_0000_0000
  type i16 = x: int | -0x8000 <= x < 0x8000
  type i64 = x: int | -0x8000_0000_0000_0000 <= x < 0x8000_0000_0000_0000

  datatype Option<+T> = None | Some(value: T)

  /** `Err` stands for the exception the program throws. */
  datatype Result<+T> = Ok(value: T) | Err

  function Min(a: int, b: int): (m: int)
    ensures m <= a && m <= b && (m == a || m == b)
  {
    if a < b then a else b
  }

  function Max(a: int, b: int): (m: int)
    ensures m >= a && m >= b && (m == a || m == b)
  {
    if a < b then b else a
  }

  /** The remainder is what a division leaves. */
  lemma RemainderIs(x: nat, q: nat, r: nat, cycle: nat)
    requires r < cycle && x == q * cycle + r
    ensures x % cycle == r
  {
    var d := x / cycle - q;
    assert x % cycle - r == -(d * cycle);
    assert d >= 1 ==> d * cycle >= cycle;
    assert d <= -1 ==> d * cycle + cycle <= 0;
  }

  /** Numbers less than one cycle apart have different remainders. */
  lemma RemaindersDiffer(a: nat, b: nat, cycle: nat)
    requires a < b < a + cycle
    ensures a % cycle != b % cycle
  {
    var d := b / cycle - a / cycle;
    assert b - a == d * cycle + (b % cycle - a % cycle);
    assert d >= 1 ==> d * cycle >= cycle;
    assert d <= 0 ==> d * cycle <= 0;
  }
}
