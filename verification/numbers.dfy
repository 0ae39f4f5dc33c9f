/** The numbers that flow through the result dictionaries.
    Python keeps a raw on-chain quantity as an `int` and a human-readable
    quantity as a `Decimal`; the two mix under `+`. */
module Numbers {

  /** A dictionary value: a raw integer or a decimal. Decimal arithmetic is
      modelled as exact arithmetic on reals. */
  datatype Num = Int(i: int) | Dec(d: real)

  /** The exact quantity a value denotes. */
  function Value(n: Num): real {
    match n
    case Int(i) => i as real
    case Dec(d) => d
  }

  /** Python `+` on int/Decimal operands: two ints give an int, any Decimal
      operand gives a Decimal. */
  function Add(a: Num, b: Num): (r: Num)
    ensures Value(r) == Value(a) + Value(b)
    ensures r.Int? <==> a.Int? && b.Int?
  {
    if a.Int? && b.Int? then Int(a.i + b.i) else Dec(Value(a) + Value(b))
  }

  /** `10**decimals`. */
  function Pow10(decimals: nat): (r: nat)
    ensures r >= 1
  {
    if decimals == 0 then 1 else 10 * Pow10(decimals - 1)
  }

  /** `Decimal(x) / Decimal(10**decimals)`: the quantity expressed in whole
      tokens of a token with `decimals` decimals. */
  function ToDecimal(n: Num, decimals: nat): (r: Num)
    ensures r.Dec?
    ensures Value(r) * (Pow10(decimals) as real) == Value(n)
  {
    Dec(Value(n) / (Pow10(decimals) as real))
  }

  /** Converting to decimal and adding commute: summing converted amounts
      equals converting the summed raw amounts. */
  lemma ToDecimalOfAdd(a: Num, b: Num, decimals: nat)
    ensures ToDecimal(Add(a, b), decimals) == Add(ToDecimal(a, decimals), ToDecimal(b, decimals))
  {
    var p := Pow10(decimals) as real;
    assert (Value(a) + Value(b)) / p == Value(a) / p + Value(b) / p;
  }
}
