/** The range-selection model: a raw filter range over the category values,
    a domain, and the linear map from that domain onto the slider's 0-100
    scale and back. */
module ScalableRanges {
  import opened Values

  const TransformationRangeMin: real := 0.0
  const TransformationRangeMax: real := 100.0

  /** The domain is a proper interval, so the linear scale is invertible. */
  predicate ProperDomain(d: ValueRange) {
    d.min.Some? && d.max.Some? && d.min.value < d.max.value
  }

  /** A bound as JavaScript's relational operators read it: null is 0. */
  function NumberOf(bound: Option<real>): real {
    if bound.Some? then bound.value else 0.0
  }

  /** The linear scale from [lo, hi] onto [0, 100], in exact arithmetic. */
  function Scale(lo: real, hi: real, x: real): (y: real)
    requires lo < hi
    ensures x == lo ==> y == TransformationRangeMin
    ensures x == hi ==> y == TransformationRangeMax
    ensures lo <= x <= hi ==> TransformationRangeMin <= y <= TransformationRangeMax
  {
    var y := (x - lo) * 100.0 / (hi - lo);
    QuotientBounds(x - lo, hi - lo);
    y
  }

  /** A part of the width, scaled to 100 over the width, lies in [0, 100]. */
  lemma QuotientBounds(d: real, width: real)
    requires width > 0.0
    ensures d == 0.0 ==> d * 100.0 / width == 0.0
    ensures d == width ==> d * 100.0 / width == 100.0
    ensures 0.0 <= d <= width ==> 0.0 <= d * 100.0 / width <= 100.0
  {
    var q := d * 100.0 / width;
    assert q * width == d * 100.0;
    if 0.0 <= d <= width {
      assert (100.0 - q) * width == 100.0 * (width - d);
      PositiveFactor(q, width);
      PositiveFactor(100.0 - q, width);
    }
  }

  /** A product with a positive factor is non-negative only if the other
      factor is. */
  lemma PositiveFactor(a: real, width: real)
    requires width > 0.0 && a * width >= 0.0
    ensures a >= 0.0
  {
  }

  /** The scale's inverse, from [0, 100] back onto [lo, hi]. */
  function Invert(lo: real, hi: real, y: real): (x: real)
    requires lo < hi
    ensures y == TransformationRangeMin ==> x == lo
    ensures y == TransformationRangeMax ==> x == hi
  {
    lo + y * (hi - lo) / 100.0
  }

  /** A slider position in [0, 100] maps back into [lo, hi]. */
  lemma InvertBounds(lo: real, hi: real, y: real)
    requires lo < hi
    ensures TransformationRangeMin <= y <= TransformationRangeMax ==> lo <= Invert(lo, hi, y) <= hi
  {
    if 0.0 <= y <= 100.0 {
      NonNegativeProduct(y, hi - lo);
      NonNegativeProduct(100.0 - y, hi - lo);
      assert (100.0 - y) * (hi - lo) == 100.0 * (hi - lo) - y * (hi - lo);
    }
  }

  lemma NonNegativeProduct(a: real, b: real)
    requires a >= 0.0 && b >= 0.0
    ensures a * b >= 0.0
  {
  }

  /** Inverting then scaling gives back the slider position. */
  lemma ScaleInvert(lo: real, hi: real, y: real)
    requires lo < hi
    ensures Scale(lo, hi, Invert(lo, hi, y)) == y
  {
    var width := hi - lo;
    var x := Invert(lo, hi, y);
    assert x - lo == y * width / 100.0;
    assert (x - lo) * 100.0 == y * width;
    assert (y * width) / width == y;
  }

  /** Scaling then inverting gives back the raw value. */
  lemma InvertScale(lo: real, hi: real, x: real)
    requires lo < hi
    ensures Invert(lo, hi, Scale(lo, hi, x)) == x
  {
    var y := Scale(lo, hi, x);
    assert y * (hi - lo) == (x - lo) * 100.0;
  }

  class ScalableRange {
    /** The raw filter range. */
    var range: ValueRange
    /** The scaling transformation's domain; the scale itself is
        `Scale(domain.min, domain.max, _)`. */
    var domain: ValueRange

    constructor()
      ensures range == Unbounded && domain == Unbounded
      ensures !IsActive()
    {
      range := Unbounded;
      domain := Unbounded;
    }

    /** A range selection is active when either bound is set. */
    function IsActive(): (active: bool)
      reads this
      ensures active <==> range != Unbounded
    {
      range.min != None || range.max != None
    }

    method SetScalingTransformationDomain(transformationDomain: ValueRange)
      modifies this
      ensures domain == transformationDomain && range == old(range)
      ensures GetScalingTransformationDomain() == transformationDomain
    {
      domain := transformationDomain;
    }

    /** The domain the scaling transformation was built on: inside it, a
        bound scales linearly between the domain's ends. */
    function GetScalingTransformationDomain(): (d: ValueRange)
      reads this
      ensures ProperDomain(d) ==>
        && ProperDomain(domain)
        && forall x | d.min.value <= x <= d.max.value :: ScaledBound(x) == Scale(d.min.value, d.max.value, x)
    {
      domain
    }

    /** Clamps a raw value into the domain. */
    function SaturateDomainValue(domainValue: real): (r: real)
      reads this
      requires ProperDomain(domain)
      ensures domain.min.value <= r <= domain.max.value
      ensures domain.min.value <= domainValue <= domain.max.value ==> r == domainValue
      ensures domainValue < domain.min.value ==> r == domain.min.value
      ensures domainValue > domain.max.value ==> r == domain.max.value
    {
      if domainValue < domain.min.value then domain.min.value
      else if domainValue > domain.max.value then domain.max.value
      else domainValue
    }

    /** The slider position of the current range: a falsy bound (null or 0)
        sits at its end of the scale; any other bound is clamped into the
        domain and scaled. The scale is needed only for a truthy bound. */
    function GetScaledValue(): (r: ValueRange)
      reads this
      requires Truthy(range.min) || Truthy(range.max) ==> ProperDomain(domain)
      ensures r.min.Some? && r.max.Some?
      ensures !Truthy(range.min) ==> r.min.value == TransformationRangeMin
      ensures !Truthy(range.max) ==> r.max.value == TransformationRangeMax
      ensures ProperDomain(domain) ==>
        TransformationRangeMin <= r.min.value <= TransformationRangeMax &&
        TransformationRangeMin <= r.max.value <= TransformationRangeMax
      ensures Truthy(range.min) && range.min.value <= domain.min.value ==> r.min.value == TransformationRangeMin
      ensures Truthy(range.max) && range.max.value >= domain.max.value ==> r.max.value == TransformationRangeMax
      ensures Truthy(range.min) && domain.min.value <= range.min.value <= domain.max.value ==>
        Invert(domain.min.value, domain.max.value, r.min.value) == range.min.value
      ensures Truthy(range.max) && domain.min.value <= range.max.value <= domain.max.value ==>
        Invert(domain.min.value, domain.max.value, r.max.value) == range.max.value
    {
      ValueRange(
        Some(if !Truthy(range.min) then TransformationRangeMin
             else ScaledBound(range.min.value)),
        Some(if !Truthy(range.max) then TransformationRangeMax
             else ScaledBound(range.max.value)))
    }

    /** A truthy bound, clamped into the domain and scaled. */
    function ScaledBound(bound: real): (y: real)
      reads this
      requires ProperDomain(domain)
      ensures TransformationRangeMin <= y <= TransformationRangeMax
      ensures domain.min.value <= bound <= domain.max.value ==>
        y == Scale(domain.min.value, domain.max.value, bound) &&
        Invert(domain.min.value, domain.max.value, y) == bound
    {
      InvertScale(domain.min.value, domain.max.value, SaturateDomainValue(bound));
      Scale(domain.min.value, domain.max.value, SaturateDomainValue(bound))
    }

    method SetValue(r: ValueRange)
      modifies this
      ensures range == r && domain == old(domain)
      ensures GetValue() == r
    {
      range := r;
    }

    /** The current range, set exactly when the range selection is active. */
    function GetValue(): (r: ValueRange)
      reads this
      ensures r != Unbounded <==> IsActive()
    {
      range
    }

    /** Sets the range from a slider position. A position exactly at 0 (100)
        keeps the old lower (upper) bound only when it lies below (above) the
        domain's end on that side, and otherwise clears it; JavaScript
        compares an unset end as 0, and needs no scale for these positions.
        Any other position is mapped back through the scale, which exists
        only for a set domain. On a proper domain, reading the position back
        gives the same position, except that a bound mapped to exactly 0 is
        falsy and reads back as its end of the scale. */
    method SetScaledValue(scaled: ValueRange)
      requires scaled.min.Some? && scaled.max.Some?
      requires scaled.min.value != TransformationRangeMin || scaled.max.value != TransformationRangeMax ==>
        ProperDomain(domain)
      modifies this
      ensures domain == old(domain)
      ensures scaled.min.value == TransformationRangeMin ==>
        range.min == (if old(range.min).Some? && old(range.min).value < NumberOf(domain.min) then old(range.min) else None)
      ensures scaled.min.value != TransformationRangeMin ==>
        range.min == Some(Invert(domain.min.value, domain.max.value, scaled.min.value))
      ensures scaled.max.value == TransformationRangeMax ==>
        range.max == (if old(range.max).Some? && old(range.max).value > NumberOf(domain.max) then old(range.max) else None)
      ensures scaled.max.value != TransformationRangeMax ==>
        range.max == Some(Invert(domain.min.value, domain.max.value, scaled.max.value))
      ensures old(range) == Unbounded ==>
        (scaled.min.value == TransformationRangeMin && scaled.max.value == TransformationRangeMax ==> range == Unbounded)
      ensures ProperDomain(domain) && TransformationRangeMin <= scaled.min.value <= TransformationRangeMax ==>
        GetScaledValue().min == Some(if range.min == Some(0.0) then TransformationRangeMin else scaled.min.value)
      ensures ProperDomain(domain) && TransformationRangeMin <= scaled.max.value <= TransformationRangeMax ==>
        GetScaledValue().max == Some(if range.max == Some(0.0) then TransformationRangeMax else scaled.max.value)
    {
      var newMin: Option<real>;
      if scaled.min.value == TransformationRangeMin {
        newMin := if range.min.Some? && range.min.value < NumberOf(domain.min) then range.min else None;
      } else {
        newMin := Some(Invert(domain.min.value, domain.max.value, scaled.min.value));
      }
      var newMax: Option<real>;
      if scaled.max.value == TransformationRangeMax {
        newMax := if range.max.Some? && range.max.value > NumberOf(domain.max) then range.max else None;
      } else {
        newMax := Some(Invert(domain.min.value, domain.max.value, scaled.max.value));
      }
      range := ValueRange(newMin, newMax);
      if ProperDomain(domain) {
        var lo, hi := domain.min.value, domain.max.value;
        ScaleInvert(lo, hi, scaled.min.value);
        ScaleInvert(lo, hi, scaled.max.value);
        InvertBounds(lo, hi, scaled.min.value);
        InvertBounds(lo, hi, scaled.max.value);
      }
    }
  }
}
