/// java.lang.Double, kept opaque. A double is identified by its canonical bit
/// pattern (Double.doubleToLongBits), which is exactly what Double.equals and
/// Objects.equals compare. The decimal text Double.toString produces is not
/// modelled; a stand-in text (the digits of the bit pattern) takes its place,
/// with the one property the code relies on: Double.valueOf reads it back.
module JavaDoubles {

  import opened Wrappers
  import opened Text

  datatype Float64 = Float64(bits: nat)

  /** 0.0 */
  const Zero := Float64(0)

  /** Stand-in for Double.toString. */
  function DoubleText(d: Float64): (s: string)
    ensures |s| >= 1 && AllDigits(s)
  {
    NatToDecimal(d.bits)
  }

  /** Stand-in for Double.valueOf: throws NumberFormatException on text it cannot read. */
  function ParseDouble(s: string): (r: Result<Float64>)
    ensures r.Err? <==> s == [] || !AllDigits(s)
  {
    if s != [] && AllDigits(s) then Ok(Float64(DecimalValue(s))) else Err(NumberFormat(s))
  }

  /** Double.valueOf(Double.toString(d)) equals d. */
  lemma DoubleTextRoundTrip(d: Float64)
    ensures ParseDouble(DoubleText(d)) == Ok(d)
  {
    DecimalRoundTrip(d.bits);
  }
}
