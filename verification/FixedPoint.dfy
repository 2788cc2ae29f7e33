/** The `Fixed` value type: an i128 scaled by WAD (src/amount.rs:32-126). */
module FixedPoint {
  import opened Prelude
  import opened Amount

  datatype Fixed = Fixed(raw: i128) {

    /** `self * o`. */
    method Mul(o: Fixed) returns (r: Option<Fixed>)
      ensures r.Some? <==> FitsI128(TruncDiv(raw * o.raw, 1_000_000_000_000_000_000))
      ensures r.Some? ==> r.value.raw == TruncDiv(raw * o.raw, 1_000_000_000_000_000_000)
    {
      var q := Amount.MulDiv(raw, o.raw, WAD);
      r := if q.Some? then Some(Fixed(q.value)) else None;
    }

    /** `self / o`. */
    method Div(o: Fixed) returns (r: Option<Fixed>)
      ensures r.Some? <==> o.raw != 0 && FitsI128(TruncDiv(raw * 1_000_000_000_000_000_000, o.raw))
      ensures r.Some? ==> r.value.raw == TruncDiv(raw * 1_000_000_000_000_000_000, o.raw)
    {
      if o.raw == 0 {
        return None;
      }
      var q := Amount.MulDiv(raw, WAD, o.raw);
      r := if q.Some? then Some(Fixed(q.value)) else None;
    }

    /** `self * num / den` in one step. */
    method MulDiv(num: Fixed, den: Fixed) returns (r: Option<Fixed>)
      ensures r.Some? <==> den.raw != 0 && FitsI128(TruncDiv(raw * num.raw, den.raw))
      ensures r.Some? ==> r.value.raw == TruncDiv(raw * num.raw, den.raw)
    {
      if den.raw == 0 {
        return None;
      }
      var q := Amount.MulDiv(raw, num.raw, den.raw);
      r := if q.Some? then Some(Fixed(q.value)) else None;
    }

    /** `self * num / den`, rounded away from zero. */
    method MulDivCeil(num: Fixed, den: Fixed) returns (r: Option<Fixed>)
      ensures r.Some? <==> den.raw != 0 && FitsI128(AwayDiv(raw * num.raw, den.raw))
      ensures r.Some? ==> r.value.raw == AwayDiv(raw * num.raw, den.raw)
    {
      if den.raw == 0 {
        return None;
      }
      var q := Amount.MulDivCeil(raw, num.raw, den.raw);
      r := if q.Some? then Some(Fixed(q.value)) else None;
    }
  }
}
