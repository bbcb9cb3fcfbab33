/**
 * The `mul` and `sub` template filters: Python's `int()` on both operands, and 0 whenever either
 * conversion raises.
 */

module MathFilters {
  import opened Wrappers
  import opened PyInt

  /** A template variable as the filters receive it; floats are not modelled. */
  datatype PyValue = IntValue(i: int) | StrValue(s: string) | BoolValue(b: bool) | NoneValue

  /**
   * Python's `int(v)`: an int is itself, a bool is 0 or 1, a string is parsed (surrounding white
   * space allowed), and `None` raises TypeError. `None` here stands for the raised exception.
   */
  function ToInt(v: PyValue): (r: Option<int>)
    ensures v.IntValue? ==> r == Some(v.i)
    ensures v.NoneValue? ==> r.None?
  {
    match v
    case IntValue(i) => Some(i)
    case StrValue(s) => ParseInt(s)
    case BoolValue(b) => Some(if b then 1 else 0)
    case NoneValue => None
  }

  /** `mul`: the product of the two converted operands, or 0 when a conversion fails. */
  function Mul(value: PyValue, arg: PyValue): (r: int)
    ensures ToInt(value).Some? && ToInt(arg).Some? ==> r == ToInt(value).value * ToInt(arg).value
    ensures ToInt(value).None? || ToInt(arg).None? ==> r == 0
  {
    match (ToInt(value), ToInt(arg))
    case (Some(x), Some(y)) => x * y
    case _ => 0
  }

  /** `sub`: the difference of the two converted operands, or 0 when a conversion fails. */
  function Sub(value: PyValue, arg: PyValue): (r: int)
    ensures ToInt(value).Some? && ToInt(arg).Some? ==> r == ToInt(value).value - ToInt(arg).value
    ensures ToInt(value).None? || ToInt(arg).None? ==> r == 0
  {
    match (ToInt(value), ToInt(arg))
    case (Some(x), Some(y)) => x - y
    case _ => 0
  }

  /** A string holding an integer's decimal text, padded with white space, converts to that integer. */
  lemma ToIntOfText(i: int, before: string, after: string)
    requires AllSpace(before) && AllSpace(after)
    ensures ToInt(StrValue(before + IntToString(i) + after)) == Some(i)
  {
    ParseIntOfString(i, before, after);
  }

  /** A blank string, or a lone sign, raises ValueError. */
  lemma ToIntOfBlank(s: string)
    requires AllSpace(s) || Strip(s) == "-" || Strip(s) == "+"
    ensures ToInt(StrValue(s)) == None
  {
    ParseIntNeedsDigits(s);
  }

  /** The filters compute on the integers the operands' texts spell, as a template passes them. */
  lemma FiltersOfText(x: int, y: int)
    ensures Mul(StrValue(IntToString(x)), StrValue(IntToString(y))) == x * y
    ensures Sub(StrValue(IntToString(x)), StrValue(IntToString(y))) == x - y
  {
    ToIntOfPlainText(x);
    ToIntOfPlainText(y);
  }

  /** An integer's decimal text, unpadded, converts back to it. */
  lemma ToIntOfPlainText(i: int)
    ensures ToInt(StrValue(IntToString(i))) == Some(i)
  {
    ToIntOfText(i, "", "");
    assert "" + IntToString(i) + "" == IntToString(i);
  }

  /** `mul` is commutative, also in its fallback. */
  lemma MulCommutes(value: PyValue, arg: PyValue)
    ensures Mul(value, arg) == Mul(arg, value)
  {
  }

  /** Swapping the operands of `sub` negates the result, also in its fallback. */
  lemma SubAntisymmetric(value: PyValue, arg: PyValue)
    ensures Sub(value, arg) == -Sub(arg, value)
  {
  }

  /**
   * A value minus itself is 0, and multiplying by 1 gives the value's integer, or 0 when it does not
   * convert.
   */
  lemma FilterIdentities(value: PyValue)
    ensures Sub(value, value) == 0
    ensures Mul(value, IntValue(1)) == ToInt(value).GetOr(0)
  {
  }

  /** A failed conversion on either side makes both filters 0, whatever the other operand is. */
  lemma FiltersFallBack(value: PyValue, arg: PyValue)
    requires ToInt(value).None? || ToInt(arg).None?
    ensures Mul(value, arg) == 0 && Sub(value, arg) == 0
  {
  }
}
