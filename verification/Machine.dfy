/** Rust's fixed-width integers: ranges, saturating operators and the casts
    between `u64` values and SQLite's signed 64-bit columns. */
module Machine {

  const U64_MAX: int := 0xFFFF_FFFF_FFFF_FFFF
  const U32_MAX: int := 0xFFFF_FFFF

  type u64 = x: int | 0 <= x <= U64_MAX
  type u32 = x: int | 0 <= x <= U32_MAX
  type i64 = x: int | -0x8000_0000_0000_0000 <= x < 0x8000_0000_0000_0000
  type byte = x: int | 0 <= x < 256

  datatype Option<+T> = None | Some(value: T)

  function Min(a: int, b: int): int {
    if a <= b then a else b
  }

  function Max(a: int, b: int): int {
    if a <= b then b else a
  }

  function SatAdd(a: u64, b: u64): u64 {
    Min(a + b, U64_MAX)
  }

  function SatMul(a: u64, b: u64): u64 {
    var p: int := a * b;
    assert p >= 0;
    Min(p, U64_MAX)
  }

  function SatSub(a: u64, b: u64): u64 {
    Max(a - b, 0)
  }

  /** `x as i64`: two's complement reinterpretation. */
  function AsI64(x: u64): i64 {
    if x < 0x8000_0000_0000_0000 then x else x - 0x1_0000_0000_0000_0000
  }

  /** `x as u64`. */
  function AsU64(x: i64): u64 {
    if x < 0 then x + 0x1_0000_0000_0000_0000 else x
  }

  /** `i64::saturating_sub`. */
  function SatSubI64(a: i64, b: i64): i64 {
    Max(-0x8000_0000_0000_0000, Min(a - b, 0x7FFF_FFFF_FFFF_FFFF))
  }

  /** `i64::saturating_mul`. */
  function SatMulI64(a: i64, b: i64): i64 {
    Max(-0x8000_0000_0000_0000, Min(a * b, 0x7FFF_FFFF_FFFF_FFFF))
  }

  /** `u64::to_string`. */
  function Decimal(n: nat): (text: string)
    ensures |text| > 0
    ensures forall c :: c in text ==> '0' <= c <= '9'
  {
    var digit := ['0' + (n % 10) as char];
    if n < 10 then digit else Decimal(n / 10) + digit
  }

  lemma {:induction false} DecimalInjective(a: nat, b: nat)
    requires Decimal(a) == Decimal(b)
    ensures a == b
  {
    var ta, tb := Decimal(a), Decimal(b);
    assert ta[|ta| - 1] == '0' + (a % 10) as char;
    assert tb[|tb| - 1] == '0' + (b % 10) as char;
    assert a % 10 == b % 10;
    if a >= 10 && b >= 10 {
      assert Decimal(a / 10) == ta[..|ta| - 1];
      assert Decimal(b / 10) == tb[..|tb| - 1];
      DecimalInjective(a / 10, b / 10);
    }
  }
}
