/** A calendar date and time of day packed into six unsigned bit-fields
    (datetime.h, struct datetime_t). */
module Dates {

  /** `uint16_t`, and also `unsigned int` on the 8-bit AVR target, where `int` is 16 bits wide. */
  type Uint16 = x: int | 0 <= x < 0x1_0000

  const UINT16_MODULUS := 0x1_0000
  const UINT32_MODULUS := 0x1_0000_0000

  /** Exclusive bounds of the bit-fields, whose widths are 12, 4, 5, 5, 6 and 6 bits. */
  const YEAR_LIMIT := 0x1000
  const MONTH_LIMIT := 0x10
  const DAY_LIMIT := 0x20
  const HOURS_LIMIT := 0x20
  const MINUTES_LIMIT := 0x40
  const SECONDS_LIMIT := 0x40

  datatype DateTime = DateTime(year: nat, month: nat, day: nat, hours: nat, minutes: nat, seconds: nat)

  /** Names the six fields, so that one getter and one setter can stand for each family of six. */
  datatype Field = Year | Month | Day | Hours | Minutes | Seconds

  function Limit(f: Field): nat
  {
    match f
    case Year => YEAR_LIMIT
    case Month => MONTH_LIMIT
    case Day => DAY_LIMIT
    case Hours => HOURS_LIMIT
    case Minutes => MINUTES_LIMIT
    case Seconds => SECONDS_LIMIT
  }

  /** Every field holds a value its bit-field can represent. */
  predicate Fits(dt: DateTime)
  {
    dt.year < YEAR_LIMIT && dt.month < MONTH_LIMIT && dt.day < DAY_LIMIT &&
    dt.hours < HOURS_LIMIT && dt.minutes < MINUTES_LIMIT && dt.seconds < SECONDS_LIMIT
  }

  /** The getters get_year() ... get_seconds(). */
  function Get(dt: DateTime, f: Field): (r: nat)
    ensures Fits(dt) ==> r < Limit(f)
  {
    match f
    case Year => dt.year
    case Month => dt.month
    case Day => dt.day
    case Hours => dt.hours
    case Minutes => dt.minutes
    case Seconds => dt.seconds
  }

  /** The default constructor. Its zero year is the marker of an unused alert slot. */
  function Zero(): (dt: DateTime)
    ensures Fits(dt)
    ensures forall f :: Get(dt, f) == 0
  {
    DateTime(0, 0, 0, 0, 0, 0)
  }

  /** Assigning a `uint16_t` to an unsigned bit-field keeps the bits that fit. */
  function Truncate(v: Uint16, limit: nat): (r: nat)
    requires 0 < limit
    ensures r < limit
    ensures v < limit ==> r == v
  {
    v % limit
  }

  /** The six-argument constructor. */
  function Make(y: Uint16, m: Uint16, d: Uint16, hr: Uint16, min: Uint16, sec: Uint16): (dt: DateTime)
    ensures Fits(dt)
    ensures (y - dt.year) % YEAR_LIMIT == 0 && (m - dt.month) % MONTH_LIMIT == 0
    ensures (d - dt.day) % DAY_LIMIT == 0 && (hr - dt.hours) % HOURS_LIMIT == 0
    ensures (min - dt.minutes) % MINUTES_LIMIT == 0 && (sec - dt.seconds) % SECONDS_LIMIT == 0
    ensures y < YEAR_LIMIT && m < MONTH_LIMIT && d < DAY_LIMIT && hr < HOURS_LIMIT &&
            min < MINUTES_LIMIT && sec < SECONDS_LIMIT
            ==> forall f :: Get(dt, f) == Get(DateTime(y, m, d, hr, min, sec), f)
  {
    DateTime(Truncate(y, YEAR_LIMIT), Truncate(m, MONTH_LIMIT), Truncate(d, DAY_LIMIT),
             Truncate(hr, HOURS_LIMIT), Truncate(min, MINUTES_LIMIT), Truncate(sec, SECONDS_LIMIT))
  }

  /** operator==: compares the six stored fields one by one. */
  predicate Equals(a: DateTime, b: DateTime)
    ensures Equals(a, b) <==> a == b
  {
    b.year == a.year && b.month == a.month && b.day == a.day &&
    b.hours == a.hours && b.minutes == a.minutes && b.seconds == a.seconds
  }

  /** operator!=: true when any of the six stored fields differs. */
  predicate NotEquals(a: DateTime, b: DateTime)
    ensures NotEquals(a, b) <==> !Equals(a, b)
  {
    b.year != a.year || b.month != a.month || b.day != a.day ||
    b.hours != a.hours || b.minutes != a.minutes || b.seconds != a.seconds
  }

  /** The range check each setter performs before its assignment. */
  predicate Accepts(f: Field, v: nat)
  {
    match f
    case Year => v < 4096
    case Month => 0 < v < 13
    case Day => 0 < v < 32
    case Hours => v < 24
    case Minutes => v < 60
    case Seconds => v < 60
  }

  /** set_year() ... set_seconds() as written: the parameter has the field's name and hides it,
      so the guarded assignment stores the parameter into itself and the value never changes. */
  function SetAsWritten(dt: DateTime, f: Field, v: Uint16): (r: DateTime)
    ensures forall g :: Get(r, g) == Get(dt, g)
  {
    dt
  }

  /** The setters as their comments describe them: store the value when it is in range,
      otherwise ignore it. */
  function Set(dt: DateTime, f: Field, v: Uint16): (r: DateTime)
    ensures Accepts(f, v) ==> Get(r, f) == v
    ensures !Accepts(f, v) ==> r == dt
    ensures forall g :: g != f ==> Get(r, g) == Get(dt, g)
    ensures Fits(dt) ==> Fits(r)
  {
    if !Accepts(f, v) then dt
    else
      match f
      case Year => dt.(year := v)
      case Month => dt.(month := v)
      case Day => dt.(day := v)
      case Hours => dt.(hours := v)
      case Minutes => dt.(minutes := v)
      case Seconds => dt.(seconds := v)
  }

  /** Every accepted value that differs from the stored one is lost by the setter as written,
      and kept by the corrected one. */
  lemma AsWrittenSetterLosesValue(dt: DateTime, f: Field, v: Uint16)
    requires Accepts(f, v) && Get(dt, f) != v
    ensures Get(SetAsWritten(dt, f, v), f) != v
    ensures Get(Set(dt, f, v), f) == v
  {
  }

  /** A concrete instance: set_seconds(30) on a default value leaves the seconds at 0. */
  lemma SetSecondsExample()
    ensures Accepts(Seconds, 30)
    ensures Get(SetAsWritten(Zero(), Seconds, 30), Seconds) == 0
    ensures Get(Set(Zero(), Seconds, 30), Seconds) == 30
  {
  }

  /** 16-bit unsigned arithmetic: each product and sum is reduced modulo 2^16. */
  function Mul16(a: Uint16, b: Uint16): Uint16
  {
    (a * b) % UINT16_MODULUS
  }

  function Add16(a: Uint16, b: Uint16): Uint16
  {
    (a + b) % UINT16_MODULUS
  }

  /** Reducing an operand modulo 2^16 before a product or a sum does not change the reduced result. */
  lemma ReduceOperands16(a: nat, b: nat, c: nat)
    ensures ((a % UINT16_MODULUS) * c) % UINT16_MODULUS == (a * c) % UINT16_MODULUS
    ensures ((a % UINT16_MODULUS) + b) % UINT16_MODULUS == (a + b) % UINT16_MODULUS
  {
    var q := a / UINT16_MODULUS;
    var r := a % UINT16_MODULUS;
    assert a == q * UINT16_MODULUS + r;
    assert a * c == (q * c) * UINT16_MODULUS + r * c;
    ShiftMod16(q * c, r * c);
    ShiftMod16(q, r + b);
  }

  /** Adding a multiple of 2^16 does not change a remainder modulo 2^16. */
  lemma ShiftMod16(k: nat, x: nat)
    ensures (k * UINT16_MODULUS + x) % UINT16_MODULUS == x % UINT16_MODULUS
  {
  }

  /** to_seconds() as written: `hr * 60 * 60 + min * 60 + sec` in 16-bit `unsigned int`.
      The result is the true number of seconds reduced modulo 2^16. */
  function ToSeconds(hr: Uint16, min: Uint16, sec: Uint16): (r: Uint16)
    ensures r == (hr * 3600 + min * 60 + sec) % UINT16_MODULUS
  {
    ReduceOperands16(hr * 60, 0, 60);
    assert hr * 60 * 60 == hr * 3600;
    ReduceOperands16(hr * 3600, min * 60, 0);
    ReduceOperands16(min * 60, hr * 3600 % UINT16_MODULUS, 0);
    ReduceOperands16(hr * 3600 + min * 60, sec, 0);
    Add16(Add16(Mul16(Mul16(hr, 60), 60), Mul16(min, 60)), sec)
  }

  /** When the true total is below 2^16, to_seconds() is exact, and it grows with the seconds
      as long as the next total is below 2^16 too. */
  lemma ToSecondsExactBelowWrap(hr: Uint16, min: Uint16, sec: Uint16)
    requires hr * 3600 + min * 60 + sec < UINT16_MODULUS
    ensures ToSeconds(hr, min, sec) == hr * 3600 + min * 60 + sec
    ensures hr * 3600 + min * 60 + sec + 1 < UINT16_MODULUS ==>
      ToSeconds(hr, min, sec) < ToSeconds(hr, min, sec + 1)
  {
  }

  /** 18:12:16, a time of day any caller may pass, converts to 0 seconds. */
  lemma ToSecondsWrapsInTheEvening()
    ensures ToSeconds(18, 12, 16) == 0
    ensures ToSecondsWide(18, 12, 16) == 65536
  {
  }

  /** 32-bit unsigned arithmetic (`unsigned long` on the AVR target). */
  function Mul32(a: nat, b: nat): nat
  {
    (a * b) % UINT32_MODULUS
  }

  function Add32(a: nat, b: nat): nat
  {
    (a + b) % UINT32_MODULUS
  }

  /** to_seconds() computed in 32-bit `unsigned long`, wide enough for every 16-bit argument:
      the count is exact, and for a time of day it lies below 86400. */
  function ToSecondsWide(hr: Uint16, min: Uint16, sec: Uint16): (r: nat)
    ensures r == hr * 3600 + min * 60 + sec
    ensures hr < 24 && min < 60 && sec < 60 ==> r < 86400
  {
    Add32(Add32(Mul32(Mul32(hr, 60), 60), Mul32(min, 60)), sec)
  }
}
