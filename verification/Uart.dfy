/** The search for a baud rate divisor: clocks per bit from high to low, until the rate is near enough. */
module Uart {
  import opened Bytes
  import opened Division

  const CLOCK: u32 := 16_000_000

  /** The rates for which the first divisor tried neither wraps around nor is zero. */
  const SLOWEST: u32 := 16
  const FASTEST: u32 := 2_000_000

  /** What the UART is programmed with: clocks per bit less one, and the divisor. */
  datatype Setting = Unset | Set(clocks: byte, divisor: u16)

  /** A product in 32-bit arithmetic. */
  function Product(a: nat, b: nat): u32 {
    a * b % 0x1_0000_0000
  }

  /** A quotient; zero where the source would divide by zero. */
  function Quotient(n: nat, d: nat): nat {
    if d == 0 then 0 else n / d
  }

  /** The divisor tried for p clock cycles, rounded, in 16-bit arithmetic. */
  function Rounded(p: u32): u16 {
    var d := Quotient(CLOCK, p) % 65536;
    if p > 0 && CLOCK % p >= p / 2 then (d + 1) % 65536 else d
  }

  /** The divisor tried for a number of clocks per bit. */
  function Divisor(baud: u32, c: nat): u16 {
    Rounded(Product(c, baud))
  }

  /** How far the rate that a setting gives is off, as a signed 32-bit difference. */
  function Error(baud: u32, c: nat): int {
    Signed(Quotient(CLOCK, Product(c, Divisor(baud, c))) - baud)
  }

  function Abs(x: int): nat {
    if x < 0 then -x else x
  }

  /** A signed 32-bit number. */
  function Signed(x: int): int {
    (x + 0x8000_0000) % 0x1_0000_0000 - 0x8000_0000
  }

  /** The absolute value of one; that of the least wraps to itself. */
  function Magnitude(x: int): int {
    Signed(Abs(x))
  }

  lemma SmallIsUnchanged(x: int)
    requires -0x8000_0000 < x < 0x8000_0000
    ensures Signed(x) == x && Magnitude(x) == Abs(x)
  {}

  predicate Supported(baud: u32) {
    SLOWEST <= baud <= FASTEST
  }

  /** The rounded divisor before it is cut to 16 bits. */
  function Unwrapped(p: u32): nat
    requires p > 0
  {
    CLOCK / p + if CLOCK % p >= p / 2 then 1 else 0
  }

  /** Rounding finds a divisor within half a unit and the odd clock. */
  lemma RoundedWithinHalf(p: u32)
    requires 248 <= p <= 32_000_000
    ensures 1 <= Rounded(p) <= 64517 && 2 * Abs(p * Rounded(p) - CLOCK) <= p + 1
  {
    var q, r := CLOCK / p, CLOCK % p;
    Divide(CLOCK, p);
    QuotientIsSmall(p);
    if r >= p / 2 {
      assert p * (q + 1) == p * q + p;
      assert Rounded(p) == q + 1;
    } else {
      assert Rounded(p) == q;
    }
    hide Rounded, Quotient;
  }

  /** How far a divisor is off for p clock cycles. */
  function Off(p: nat, d: nat): nat {
    Abs(p * d - CLOCK)
  }

  ghost predicate Nearest(p: nat, d: nat) {
    forall k: nat :: Off(p, d) <= Off(p, k)
  }

  lemma OffBounds(p: nat, q: nat, r: nat, k: nat)
    requires CLOCK == p * q + r && r < p
    ensures if k <= q then Off(p, k) >= r else Off(p, k) >= p - r
    ensures (k == q ==> Off(p, k) == r) && (k == q + 1 ==> Off(p, k) == p - r)
  {
    assert p * (q - k) == p * q - p * k;
    assert p * (k - q - 1) == p * k - p * q - p;
    MulMonotone(0, if k <= q then q - k else k - q - 1, p);
  }

  /** Rounding finds the nearest divisor exactly if not half of an odd number, rounded down, remains. */
  lemma RoundedIsNearestIff(p: u32)
    requires 248 <= p <= 32_000_000
    ensures Nearest(p, Rounded(p)) <==> !(p % 2 == 1 && CLOCK % p == p / 2)
  {
    var q, r := CLOCK / p, CLOCK % p;
    Divide(CLOCK, p);
    QuotientIsSmall(p);
    assert Rounded(p) == if r >= p / 2 then q + 1 else q;
    hide Rounded, Quotient, Off;
    OffBounds(p, q, r, q);
    OffBounds(p, q, r, q + 1);
    if p % 2 == 1 && r == p / 2 {
      assert Off(p, q) < Off(p, Rounded(p));
    } else {
      forall k: nat
        ensures Off(p, Rounded(p)) <= Off(p, k)
      {
        OffBounds(p, q, r, k);
      }
    }
  }

  lemma Divide(n: nat, p: nat)
    requires p > 0
    ensures n == p * (n / p) + n % p && n % p < p
  {}

  lemma QuotientIsSmall(p: u32)
    requires 248 <= p <= 32_000_000
    ensures CLOCK / p <= 64516 && (CLOCK / p == 0 ==> CLOCK % p == CLOCK)
  {
    MulMonotone(248, p, 64517);
    QuotientBounds(CLOCK, p, 64517);
    Divide(CLOCK, p);
  }

  lemma ProductInRange(a: nat, b: nat, low: nat, high: nat)
    requires low <= b <= high && 16 * high < 0x1_0000_0000 && 4 <= a <= 16
    ensures Product(a, b) == a * b && 4 * low <= a * b <= 16 * high
  {
    MulMonotone(4, a, b);
    MulMonotone(a, 16, b);
  }

  /** What the search tries for a supported rate: for a slow one no more than 16 clocks per bit. */
  predicate Tried(baud: u32, c: nat) {
    Supported(baud) && 4 <= c <= 16 && (c == 16 || baud >= 62)
  }

  /** Nothing that is tried wraps around. */
  lemma InRange(baud: u32, c: nat)
    requires Tried(baud, c)
    ensures Product(c, baud) == c * baud && 248 <= c * baud <= 32_000_000
    ensures var d := Divisor(baud, c); 1 <= d <= 64517 && Product(c, d) == c * d > 0
  {
    hide Product, Rounded;
    ProductInRange(c, baud, if c == 16 then SLOWEST else 62, FASTEST);
    RoundedWithinHalf(c * baud);
    ProductInRange(c, Divisor(baud, c), 1, 64517);
  }

  /** Each divisor d tried gives a rate that is off by at most (c * baud + 1) / (2 * c * d) + 1. */
  lemma ErrorBound(baud: u32, c: nat)
    requires Tried(baud, c)
    ensures 2 * (c * Divisor(baud, c)) > 0
    ensures Abs(Error(baud, c)) <= (c * baud + 1) / (2 * (c * Divisor(baud, c))) + 1
  {
    hide Product, Rounded, Abs;
    InRange(baud, c);
    RoundedWithinHalf(c * baud);
    var d := Divisor(baud, c);
    QuotientIsAtMost(CLOCK, c * d);
    SmallIsUnchanged(CLOCK / (c * d) - baud);
    hide Signed;
    assert Error(baud, c) == CLOCK / (c * d) - baud;
    hide Divisor, Error, Quotient;
    Regroup(c, baud, d);
    RateBound(CLOCK, c * d, baud, c * baud + 1);
  }

  lemma QuotientIsAtMost(n: nat, m: nat)
    requires m > 0
    ensures 0 <= n / m <= n
  {
    MulMonotone(1, m, n + 1);
    QuotientBounds(n, m, n + 1);
  }

  lemma Regroup(c: int, baud: int, d: int)
    ensures c * baud * d == baud * (c * d)
  {}

  lemma RateBound(n: nat, m: nat, baud: nat, bound: nat)
    requires m > 0 && 2 * Abs(baud * m - n) <= bound
    ensures Abs(n / m - baud) <= bound / (2 * m) + 1
  {
    var rate := n / m;
    var x, y := rate * m, baud * m;
    assert x <= n < x + m;
    if rate >= baud {
      Difference(rate, baud, m);
      QuotientBounds(bound, 2 * m, rate - baud);
    } else {
      Difference(baud, rate + 1, m);
      assert (rate + 1) * m == x + m;
      QuotientBounds(bound, 2 * m, baud - rate - 1);
    }
  }

  lemma Difference(a: int, b: int, m: int)
    ensures (a - b) * (2 * m) == 2 * (a * m) - 2 * (b * m)
  {}

  /** Within a sixteenth of the rate. */
  predicate Near(baud: u32, c: nat) {
    Magnitude(Error(baud, c)) <= baud / 16
  }

  /** The first near setting, from c clocks per bit down. */
  function Search(baud: u32, c: nat): Setting
    requires 3 <= c <= 16
  {
    if c == 3 then Unset else if Near(baud, c) then Set(c - 1, Divisor(baud, c)) else Search(baud, c - 1)
  }

  /** What the search finds is near, nothing with more clocks is, and it finds nothing only if nothing is. */
  lemma {:induction false} SearchFindsFirst(baud: u32, c: nat)
    requires 3 <= c <= 16
    ensures match Search(baud, c)
            case Unset => forall k :: 4 <= k <= c ==> !Near(baud, k)
            case Set(clocks, divisor) =>
              && 4 <= clocks + 1 <= c && Near(baud, clocks + 1) && divisor == Divisor(baud, clocks + 1)
              && forall k :: clocks + 1 < k <= c ==> !Near(baud, k)
  {
    hide Near, Divisor;
    if c > 3 {
      SearchFindsFirst(baud, c - 1);
    }
  }

  /** Every rate up to 115200 is met by the first setting tried. */
  lemma CommonRatesAreFirst(baud: u32)
    requires SLOWEST <= baud <= 115200
    ensures Search(baud, 16) == Set(15, Divisor(baud, 16))
  {
    hide Product, Rounded, Error, Divisor, Quotient, Signed;
    InRange(baud, 16);
    ErrorBound(baud, 16);
    ErrorIsSmall(baud, 16);
    SmallIsUnchanged(Error(baud, 16));
    hide Abs, Magnitude;
    var d: int := Divisor(baud, 16);
    assert d == Rounded(16 * baud) by {
      DivisorIs(baud, 16);
    }
    RoundedWithinHalf(16 * baud);
    DivisorIsLarge(baud, d);
    var k := baud / 16;
    MulMonotone(baud - 15, 16 * k, 2 * d);
    Shift(k, d);
    QuotientBounds(16 * baud + 1, 2 * (16 * d), k);
  }

  /** One divisor d tried for p clock cycles, from exact quotients of 16 MHz: it gives m cycles and a rate. */
  lemma Outcome(baud: u32, c: nat, p: u32, q: u16, rem: nat, d: u16, m: u32, rate: u32, left: nat)
    requires baud < 0x7000_0000 && p == c * baud && rem < p && q * p + rem == 16_000_000
    requires d == if rem >= p / 2 then q + 1 else q
    requires m == c * d && left < m && rate * m + left == 16_000_000
    ensures Divisor(baud, c) == d
    ensures Near(baud, c) <==> Abs(rate - baud) <= baud / 16
  {
    ProductIs(c, baud, p);
    ProductIs(c, d, m);
    RoundedIs(p, q, rem);
    RateIs(m, rate, left);
    hide Product, Rounded, Quotient, Signed, Abs;
    SmallIsUnchanged(rate - baud);
  }

  lemma ProductIs(a: nat, b: nat, p: u32)
    requires p == a * b
    ensures Product(a, b) == p
  {}

  lemma RoundedIs(p: u32, q: u16, rem: nat)
    requires rem < p && q * p + rem == 16_000_000
    ensures Rounded(p) == if rem >= p / 2 then (q + 1) % 65536 else q
  {
    QuotientIs(16_000_000, p, q, rem);
  }

  lemma RateIs(m: u32, rate: u32, left: nat)
    requires left < m && rate * m + left == 16_000_000
    ensures Quotient(CLOCK, m) == rate && rate <= 16_000_000
  {
    QuotientIs(16_000_000, m, rate, left);
    QuotientIsAtMost(16_000_000, m);
  }

  lemma QuotientIs(n: nat, m: nat, q: nat, r: nat)
    requires 0 < m && q * m + r == n && r < m
    ensures n / m == q && n % m == r
  {
    QuotientBounds(n, m, q);
    QuotientBounds(n, m, q + 1);
    assert (q + 1) * m == q * m + m;
    assert n == n / m * m + n % m;
  }

  /** The registers for some rates. */
  lemma KnownSettings()
    ensures Search(9600, 16) == Set(15, 104) && Search(115200, 16) == Set(15, 9)
    ensures Search(1000000, 16) == Set(15, 1)
  {
    hide Near, Divisor;
    Outcome(9600, 16, 153600, 104, 25600, 104, 1664, 9615, 640);
    Outcome(115200, 16, 1843200, 8, 1254400, 9, 144, 111111, 16);
    Outcome(1000000, 16, 16000000, 1, 0, 1, 16, 1000000, 0);
  }

  /** Two that are met only by nine and by eleven clocks per bit. */
  lemma DeepSettings()
    ensures Search(921600, 16) == Set(8, 2)
    ensures Search(1500000, 16) == Set(10, 1)
  {
    hide Near, Divisor;
    Outcome(921600, 16, 14745600, 1, 1254400, 1, 16, 1000000, 0);
    Outcome(921600, 15, 13824000, 1, 2176000, 1, 15, 1066666, 10);
    Outcome(921600, 14, 12902400, 1, 3097600, 1, 14, 1142857, 2);
    Outcome(921600, 13, 11980800, 1, 4019200, 1, 13, 1230769, 3);
    Outcome(921600, 12, 11059200, 1, 4940800, 1, 12, 1333333, 4);
    Outcome(921600, 11, 10137600, 1, 5862400, 2, 22, 727272, 16);
    Outcome(921600, 10, 9216000, 1, 6784000, 2, 20, 800000, 0);
    Outcome(921600, 9, 8294400, 1, 7705600, 2, 18, 888888, 16);
    Outcome(1500000, 16, 24000000, 0, 16000000, 1, 16, 1000000, 0);
    Outcome(1500000, 15, 22500000, 0, 16000000, 1, 15, 1066666, 10);
    Outcome(1500000, 14, 21000000, 0, 16000000, 1, 14, 1142857, 2);
    Outcome(1500000, 13, 19500000, 0, 16000000, 1, 13, 1230769, 3);
    Outcome(1500000, 12, 18000000, 0, 16000000, 1, 12, 1333333, 4);
    Outcome(1500000, 11, 16500000, 0, 16000000, 1, 11, 1454545, 5);
  }

  lemma ErrorIsSmall(baud: u32, c: nat)
    ensures -0x8000_0000 <= Error(baud, c) < 0x8000_0000
  {
    hide Divisor, Quotient, Product;
  }

  lemma DivisorIs(baud: u32, c: nat)
    ensures Divisor(baud, c) == Rounded(Product(c, baud))
  {}

  lemma Shift(k: int, d: int)
    ensures 16 * k * (2 * d) == k * (2 * (16 * d))
  {}

  lemma DivisorIsLarge(baud: nat, d: nat)
    requires SLOWEST <= baud <= 115200 && 2 * Abs(16 * baud * d - CLOCK) <= 16 * baud + 1
    ensures 16 * baud + 1 < (baud - 15) * (2 * d)
  {
    var low := if baud <= 135 then 1000 else 8;
    assert d * (16 * baud) == 16 * baud * d;
    if d <= low {
      MulMonotone(d, low, 16 * baud);
    }
    MulMonotone(low + 1, d, 2 * (baud - 15));
    assert d * (2 * (baud - 15)) == (baud - 15) * (2 * d);
  }

  /** The search from c clocks per bit down never divides by zero. */
  predicate NeverByZero(baud: u32, c: nat)
    requires 3 <= c <= 16
  {
    c == 3 ||
    (&& Product(c, baud) != 0 && Product(c, Divisor(baud, c)) != 0
     && (Near(baud, c) || NeverByZero(baud, c - 1)))
  }

  /** A supported rate is searched for without a wrap-around or a division by zero in anything that is tried. */
  lemma SupportedNeverByZero(baud: u32)
    requires Supported(baud)
    ensures NeverByZero(baud, 16)
    ensures forall c :: 4 <= c <= 16 && (forall k :: c < k <= 16 ==> !Near(baud, k)) ==> Tried(baud, c)
  {
    hide Product, Divisor, Near;
    if baud < 62 {
      CommonRatesAreFirst(baud);
      SearchFindsFirst(baud, 16);
      InRange(baud, 16);
    } else {
      FastNeverByZero(baud, 16);
    }
  }

  lemma {:induction false} FastNeverByZero(baud: u32, c: nat)
    requires Supported(baud) && baud >= 62 && 3 <= c <= 16
    ensures NeverByZero(baud, c)
  {
    hide Product, Divisor, Near;
    if c > 3 {
      InRange(baud, c);
      FastNeverByZero(baud, c - 1);
    }
  }

  /** The first divisor is computed as meant, without any wrap-around, and can be divided by. */
  predicate FirstIsSound(baud: u32) {
    0 < 16 * baud < 0x1_0000_0000 && 1 <= Unwrapped(16 * baud) < 65536
  }

  /** Exactly the supported rates start soundly: a slower one wraps the divisor, a faster one makes it zero. */
  lemma FirstIsSoundIff(baud: u32)
    ensures FirstIsSound(baud) <==> Supported(baud)
    ensures 0 < baud < SLOWEST ==> Unwrapped(16 * baud) >= 66667
    ensures FASTEST < baud < 0x1000_0000 ==> Divisor(baud, 16) == 0 && !NeverByZero(baud, 16)
    ensures baud == 0 ==> !NeverByZero(baud, 16)
  {
    hide Unwrapped, Rounded, Near, NeverByZero, Search;
    if FASTEST < baud < 0x1000_0000 {
      FastIsZero(16 * baud);
      ZeroIsByZero(baud);
    } else if Supported(baud) {
      InRange(baud, 16);
      SupportedUnwrapped(16 * baud);
    } else if 0 < baud < SLOWEST {
      SlowWraps(16 * baud);
    } else if baud == 0 {
      ZeroIsByZero(0);
    }
  }

  lemma ZeroIsByZero(baud: u32)
    requires Product(16, baud) == 0 || Divisor(baud, 16) == 0
    ensures !NeverByZero(baud, 16)
  {
    hide Divisor;
  }

  lemma FastIsZero(p: u32)
    requires p > 32_000_000 && p % 16 == 0
    ensures Rounded(p) == 0 == Unwrapped(p)
  {
    assert p >= 32_000_016;
    DivideLess(CLOCK, p);
  }

  lemma DivideLess(n: nat, p: nat)
    requires n < p
    ensures n / p == 0 && n % p == n
  {}

  lemma SlowWraps(p: u32)
    requires 0 < p <= 240
    ensures Unwrapped(p) >= 66667
  {
    Divide(CLOCK, p);
    var q := CLOCK / p;
    if p < 240 {
      MulMonotone(p, 239, 66667);
      QuotientBounds(CLOCK, p, 66667);
    }
  }

  lemma SupportedUnwrapped(p: u32)
    requires 248 <= p <= 32_000_000
    ensures 1 <= Unwrapped(p) <= 64517
  {
    QuotientIsSmall(p);
  }

  class Port {
    // the two registers that the search writes
    var clocks: byte
    var divisor: u16

    constructor () {
      clocks, divisor := 0, 0;
    }

    /**
     * UART_vSetBaudRate: the registers take the first setting found, after at most 13 divisors tried, and
     * stay as they are if there is none.
     */
    method SetBaudRate(baud: u32) returns (tried: nat)
      requires NeverByZero(baud, 16)
      modifies this
      ensures tried <= 13
      ensures match Search(baud, 16)
              case Unset => clocks == old(clocks) && divisor == old(divisor) && tried == 13
              case Set(c, d) => clocks == c && divisor == d && tried == 16 - c
    {
      hide Error, Divisor, Product;
      var clocksPerBit: byte := 16;
      var d: u16 := 0;
      var error := 0x7FFF_FFFF;
      tried := 0;
      while Magnitude(error) > baud / 16
        invariant clocks == old(clocks) && divisor == old(divisor)
        invariant 3 <= clocksPerBit <= 16 && tried == 16 - clocksPerBit
        invariant if Magnitude(error) > baud / 16
                  then Search(baud, clocksPerBit) == Search(baud, 16) && NeverByZero(baud, clocksPerBit)
                  else Search(baud, 16) == Set(clocksPerBit, d)
        decreases clocksPerBit, Magnitude(error) > baud / 16
      {
        clocksPerBit := clocksPerBit - 1;
        if clocksPerBit < 3 {
          return;
        }
        d, error := Try(baud, clocksPerBit + 1);
        tried := tried + 1;
      }
      clocks := clocksPerBit;
      divisor := d;
    }

    /** One divisor tried: the quotient, rounded up from half a unit on. */
    static method Try(baud: u32, c: nat) returns (d: u16, error: int)
      requires Product(c, baud) != 0 && Product(c, Divisor(baud, c)) != 0
      ensures d == Divisor(baud, c) && error == Error(baud, c)
    {
      var p := Product(c, baud);
      hide Product;
      d := CLOCK / p % 65536;
      var remainder := CLOCK % p;
      if remainder >= p / 2 {
        d := (d + 1) % 65536;
      }
      error := Signed(CLOCK / Product(c, d) - baud);
    }
  }
}
