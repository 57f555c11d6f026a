/**
 * Subtitle times: a whole number of milliseconds, its split into
 * hours/minutes/seconds/milliseconds, integer arithmetic with clamped binary
 * subtraction, and comparisons that refuse anything that is not a time.
 * `Time` is the value; `TimeObject` is the mutable object behind `+=` and `-=`.
 */
module Times {
  import opened Wrappers

  datatype Time = Time(milliseconds: int)

  /** The dictionary returned by `human_time`. */
  datatype HumanTime = HumanTime(hours: int, minutes: int, seconds: int, milliseconds: int)

  /** A right operand of `+` and `-`: an integer or another time (floats are not modelled). */
  datatype Operand = IntOperand(n: int) | TimeOperand(t: Time)

  function Amount(o: Operand): int {
    match o
    case IntOperand(n) => n
    case TimeOperand(t) => t.milliseconds
  }

  const MillisPerHour := 3600000
  const MillisPerMinute := 60000
  const MillisPerSecond := 1000

  /** `human_time`: floor divisions by an hour, a minute and a second in turn. */
  function ToHumanTime(t: Time): (h: HumanTime)
    ensures 0 <= h.minutes < 60 && 0 <= h.seconds < 60 && 0 <= h.milliseconds < 1000
    ensures h.hours * MillisPerHour + h.minutes * MillisPerMinute + h.seconds * MillisPerSecond + h.milliseconds
            == t.milliseconds
    ensures t.milliseconds >= 0 <==> h.hours >= 0
  {
    var ms := t.milliseconds;
    var hours := ms / MillisPerHour;
    var ms1 := ms - hours * MillisPerHour;
    var minutes := ms1 / MillisPerMinute;
    var ms2 := ms1 - minutes * MillisPerMinute;
    var seconds := ms2 / MillisPerSecond;
    var ms3 := ms2 - seconds * MillisPerSecond;
    HumanTime(hours, minutes, seconds, ms3)
  }

  /** `from_human_time(milliseconds, seconds, minutes, hours)`. */
  function FromHumanTime(milliseconds: int, seconds: int, minutes: int, hours: int): Time {
    Time(milliseconds + hours * MillisPerHour + minutes * MillisPerMinute + seconds * MillisPerSecond)
  }

  /** Recombining the parts of `human_time` gives the time back. */
  lemma FromHumanTimeOfParts(t: Time)
    ensures var h := ToHumanTime(t);
      FromHumanTime(h.milliseconds, h.seconds, h.minutes, h.hours) == t
  {
  }

  /** Conversely, parts in range are exactly what `human_time` produces for their sum. */
  lemma {:induction false} ToHumanTimeOfInRangeParts(h: HumanTime)
    requires 0 <= h.minutes < 60 && 0 <= h.seconds < 60 && 0 <= h.milliseconds < 1000
    ensures ToHumanTime(FromHumanTime(h.milliseconds, h.seconds, h.minutes, h.hours)) == h
  {
    var t := FromHumanTime(h.milliseconds, h.seconds, h.minutes, h.hours);
    var rest := h.minutes * MillisPerMinute + h.seconds * MillisPerSecond + h.milliseconds;
    assert 0 <= rest < MillisPerHour;
    DivideExactly(t.milliseconds, MillisPerHour, h.hours, rest);
    var rest2 := h.seconds * MillisPerSecond + h.milliseconds;
    assert 0 <= rest2 < MillisPerMinute;
    DivideExactly(rest, MillisPerMinute, h.minutes, rest2);
    DivideExactly(rest2, MillisPerSecond, h.seconds, h.milliseconds);
  }

  /** Floor division of q * d + r by d when 0 <= r < d. */
  lemma DivideExactly(n: int, d: int, q: int, r: int)
    requires d > 0 && 0 <= r < d && n == q * d + r
    ensures n / d == q
  {
    var k := q - n / d;
    assert k * d == n % d - r by {
      assert n == (n / d) * d + n % d;
      assert q * d - (n / d) * d == k * d;
    }
    if k > 0 {
      MultipleAtLeast(k, d);
    } else if k < 0 {
      MultipleAtLeast(-k, d);
    }
  }

  lemma MultipleAtLeast(k: int, d: int)
    requires k >= 1 && d > 0
    ensures k * d >= d
  {
    assert k * d == (k - 1) * d + d;
    assert (k - 1) * d >= 0;
  }

  /** `__add__` and `__radd__`: a new time; integers and times add alike. */
  function Add(t: Time, other: Operand): Time {
    Time(t.milliseconds + Amount(other))
  }

  /** `__sub__`: the difference, clamped at zero. */
  function Sub(t: Time, other: Operand): (r: Time)
    ensures r.milliseconds >= 0 && r.milliseconds >= t.milliseconds - Amount(other)
    ensures r.milliseconds == 0 || r.milliseconds == t.milliseconds - Amount(other)
  {
    var d := t.milliseconds - Amount(other);
    Time(if 0 > d then 0 else d)
  }

  /** `__rsub__` (`other - t`): not clamped. */
  function RSub(t: Time, other: Operand): (r: Time)
    ensures r.milliseconds + t.milliseconds == Amount(other)
  {
    Time(Amount(other) - t.milliseconds)
  }

  /** `+` on two times is commutative, as `__radd__` is `__add__`. */
  lemma AddCommutes(a: Time, b: Time)
    ensures Add(a, TimeOperand(b)) == Add(b, TimeOperand(a))
  {
  }

  /** Subtraction undoes addition on non-negative times; clamping never interferes. */
  lemma SubUndoesAdd(t: Time, other: Operand)
    requires t.milliseconds >= 0
    ensures Sub(Add(t, other), other) == t
  {
  }

  /** Clamped and reflected subtraction differ exactly when the difference is negative. */
  lemma SubAndRSub(a: Time, b: Time)
    ensures Sub(a, TimeOperand(b)) == RSub(b, TimeOperand(a)) <==> a.milliseconds >= b.milliseconds
  {
  }

  // ---------------------------------------------------------------- comparisons

  datatype Comparison = Eq | Gt | Lt | Ge | Le

  /** The right operand of a comparison: a time or any other object. */
  datatype Comparand = TimeValue(t: Time) | OtherValue

  /** `__eq__`, `__gt__`, `__lt__`, `__ge__`, `__le__`: ValueError unless the operand is a time. */
  function Compare(t: Time, op: Comparison, other: Comparand): (r: Result<bool>)
    ensures r.Err? <==> other.OtherValue?
    ensures r.Err? ==> r.error == ValueError
  {
    match other
    case OtherValue => Err(ValueError)
    case TimeValue(u) =>
      var a, b := t.milliseconds, u.milliseconds;
      Ok(match op
         case Eq => a == b
         case Gt => a > b
         case Lt => a < b
         case Ge => a >= b
         case Le => a <= b)
  }

  /**
   * The comparisons form one total order, agree with one another, and `==`
   * coincides with equality of the time values.
   */
  lemma ComparisonsAreOneTotalOrder(a: Time, b: Time)
    ensures Compare(a, Eq, TimeValue(b)) == Ok(a == b)
    ensures Compare(a, Lt, TimeValue(b)) == Compare(b, Gt, TimeValue(a))
    ensures Compare(a, Le, TimeValue(b)) == Compare(b, Ge, TimeValue(a))
    ensures Compare(a, Le, TimeValue(b)).value <==> Compare(a, Lt, TimeValue(b)).value || a == b
    ensures Compare(a, Le, TimeValue(b)).value || Compare(b, Le, TimeValue(a)).value
    ensures Compare(a, Ge, TimeValue(b)).value <==> !Compare(a, Lt, TimeValue(b)).value
  {
  }

  // ---------------------------------------------------------------- the mutable object

  /** A `Time` instance: `+` and `-` build new objects, `+=` and `-=` change this one. */
  class TimeObject {
    var milliseconds: int

    constructor (milliseconds: int)
      ensures this.milliseconds == milliseconds
    {
      this.milliseconds := milliseconds;
    }

    function Value(): Time
      reads this
    {
      Time(milliseconds)
    }

    /** `self + other`: a fresh object, both operands unchanged. */
    method Plus(other: Operand) returns (r: TimeObject)
      ensures fresh(r) && r.Value() == Add(Value(), other)
    {
      r := new TimeObject(milliseconds + Amount(other));
    }

    /** `self += other`: this object changes and is returned. */
    method PlusAssign(other: Operand) returns (r: TimeObject)
      modifies this
      ensures r == this && Value() == Add(old(Value()), other)
    {
      milliseconds := milliseconds + Amount(other);
      r := this;
    }

    /** `self - other`: a fresh object holding the clamped difference. */
    method Minus(other: Operand) returns (r: TimeObject)
      ensures fresh(r) && r.Value() == Sub(Value(), other)
    {
      var d := milliseconds - Amount(other);
      r := new TimeObject(if 0 > d then 0 else d);
    }

    /** `self -= other`: unlike `-`, not clamped, so the time may become negative. */
    method MinusAssign(other: Operand) returns (r: TimeObject)
      modifies this
      ensures r == this && milliseconds == old(milliseconds) - Amount(other)
    {
      milliseconds := milliseconds - Amount(other);
      r := this;
    }

    /** `other - self`: a fresh object, not clamped. */
    method ReflectedMinus(other: Operand) returns (r: TimeObject)
      ensures fresh(r) && r.Value() == RSub(Value(), other)
    {
      r := new TimeObject(Amount(other) - milliseconds);
    }
  }
}
