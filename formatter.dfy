/** Price text and discount percentage, as shown on each carousel card. */
module Formatter {
  import opened Wrappers
  import Seqs

  /** Markup around the fractional digits; the comma is the Turkish decimal separator. */
  const DecimalOpen: string := "<span class=\"decimal\">,"
  const DecimalClose: string := "</span>"

  /** `[whole, decimal] = text.split(".")`: the text before the first dot. */
  function WholePart(text: string): (r: string)
    ensures r <= text && '.' !in r
    ensures '.' !in text ==> r == text
    ensures '.' in text ==> r + "." <= text
  {
    var i := Seqs.IndexOf(text, '.');
    if i < 0 then text else text[..i]
  }

  /** The second piece of `text.split(".")`: the text between the first dot
      and the next one (or the end); `None` when there is no dot. */
  function DecimalPart(text: string): (r: Option<string>)
    ensures r.None? <==> '.' !in text
    ensures r.Some? ==> '.' !in r.value && WholePart(text) + "." + r.value <= text
    // the piece runs to the next dot or to the end of the text
    ensures r.Some? ==>
              WholePart(text) + "." + r.value == text || WholePart(text) + "." + r.value + "." <= text
  {
    var i := Seqs.IndexOf(text, '.');
    if i < 0 then None
    else
      var rest := text[i + 1..];
      var j := Seqs.IndexOf(rest, '.');
      var d := if j < 0 then rest else rest[..j];
      assert text[..i] + "." + d == text[..i + 1 + |d|];
      Some(d)
  }

  /** `formatPrice`: the whole part, then the fractional digits inside a
      "decimal" span after a comma; a text with no fractional digits (no dot,
      or nothing after the dot) comes out as its whole part. */
  function FormatPrice(text: string): (r: string)
    ensures '.' !in text ==> r == text
    ensures DecimalPart(text).Some? && DecimalPart(text).value != "" ==>
              r == WholePart(text) + DecimalOpen + DecimalPart(text).value + DecimalClose
    ensures DecimalPart(text).Some? && DecimalPart(text).value == "" ==> r == WholePart(text)
  {
    match DecimalPart(text)
    case Some(d) => if d != "" then WholePart(text) + DecimalOpen + d + DecimalClose else WholePart(text)
    case None => WholePart(text)
  }

  /** The text of a number with a fractional part: the dot is replaced by the
      comma inside the decimal span, and both halves are kept. */
  lemma FormatPriceOfDecimal(whole: string, fraction: string)
    requires '.' !in whole && '.' !in fraction && fraction != ""
    ensures FormatPrice(whole + "." + fraction) == whole + DecimalOpen + fraction + DecimalClose
  {
    var text := whole + "." + fraction;
    Seqs.IndexOfAfterPrefix(whole, '.', fraction);
    assert text[..|whole|] == whole;
    assert text[|whole| + 1..] == fraction;
  }

  /** A text ending in a bare dot loses the dot, since `if (decimal)` treats
      the empty fraction as absent. */
  lemma FormatPriceTrailingDot(whole: string)
    requires '.' !in whole
    ensures FormatPrice(whole + ".") == whole
  {
    var text := whole + ".";
    Seqs.IndexOfAfterPrefix(whole, '.', "");
    assert text[..|whole|] == whole;
    assert text[|whole| + 1..] == "";
  }

  /** `Math.round`: the nearest integer, halves rounded up. */
  function Round(x: real): (r: int)
    ensures r as real - 0.5 <= x < r as real + 0.5
  {
    (x + 0.5).Floor
  }

  /** The percentage `round(100 * (original - current) / original)`. */
  function DiscountPercent(original: real, current: real): (r: int)
    requires original != 0.0
    ensures r as real - 0.5 <= (original - current) / original * 100.0 < r as real + 0.5
  {
    Round((original - current) / original * 100.0)
  }

  /** `calculateDiscount`: `None` (JavaScript's `null`) unless the original
      price is present, truthy (not 0) and above the current price. */
  function CalculateDiscount(original: Option<real>, current: real): (r: Option<int>)
    ensures r.None? <==> original.None? || original.value == 0.0 || original.value <= current
    ensures r.Some? ==> r.value as real - 0.5 <= (original.value - current) / original.value * 100.0
    ensures r.Some? ==> (original.value - current) / original.value * 100.0 < r.value as real + 0.5
  {
    if original.Some? && original.value != 0.0 && original.value > current
    then Some(DiscountPercent(original.value, current))
    else None
  }

  /** For a non-negative current price below the original, the percentage
      lies between 0 and 100. */
  lemma DiscountInRange(original: real, current: real)
    requires 0.0 <= current < original
    ensures CalculateDiscount(Some(original), current).Some?
    ensures 0 <= CalculateDiscount(Some(original), current).value <= 100
  {
    var q := (original - current) / original;
    assert 0.0 < q <= 1.0 by {
      assert q * original == original - current;
    }
    var r := CalculateDiscount(Some(original), current).value;
    assert 0.0 < q * 100.0 <= 100.0;
  }

  lemma DiscountExample()
    ensures CalculateDiscount(Some(100.0), 75.0) == Some(25)
    ensures CalculateDiscount(Some(100.0), 100.0) == None
    ensures CalculateDiscount(Some(100.0), 200.0) == None
    ensures CalculateDiscount(Some(0.0), -5.0) == None
    ensures CalculateDiscount(None, 75.0) == None
  {
    assert (100.0 - 75.0) / 100.0 * 100.0 == 25.0;
  }
}
