/** `calculateFromString`: check the display text against the input pattern, read its groups,
    and calculate. */
module Evaluator {
  import opened Grammar
  import opened Decimal
  import opened Arithmetic

  /** Models `calculateFromString(input)`. A string outside the pattern gives the sentinel;
      otherwise the result is `calculate` on the values of the two digit groups, whichever way the
      string is read, and the unknown-operator message never comes out. */
  function CalculateFromString(s: string): (r: Outcome)
    ensures !InLanguage(s) ==> r == Err(ErrorText)
    ensures forall p | IsSplitOf(s, p) :: r == Calculate(Value(p.lhs) as real, [p.op], Value(p.rhs) as real)
    ensures r != Err(InvalidOption)
  {
    IsInputValidExactly(s);
    ScanUnique(s);
    if IsInputValid(s) then
      var p := Scan(s).value;
      assert [p.op] in Operators;
      Calculate(Value(p.lhs) as real, [p.op], Value(p.rhs) as real)
    else
      Err(ErrorText)
  }

  /** The sentinel comes out exactly for a string outside the pattern, or a division whose right
      group is all zeros. */
  lemma ErrorTextExactly(s: string)
    ensures CalculateFromString(s) == Err(ErrorText) <==>
      || !InLanguage(s)
      || exists p | IsSplitOf(s, p) :: p.op == '/' && forall i | 0 <= i < |p.rhs| :: p.rhs[i] == '0'
  {
    if InLanguage(s) {
      var p :| IsSplitOf(s, p);
      ScanUnique(s);
      ValueZero(p.rhs);
      if CalculateFromString(s) == Err(ErrorText) {
        assert [p.op] == "/";
      }
    }
  }

  /** The result for a string is fixed by any one reading of it. */
  lemma EvaluateSplit(s: string, p: Split)
    requires IsSplitOf(s, p)
    ensures CalculateFromString(s) == Calculate(Value(p.lhs) as real, [p.op], Value(p.rhs) as real)
  {
  }

  /** A zero divisor gives the sentinel. */
  lemma ExampleDivideByZero()
    ensures CalculateFromString("6 / 0") == Err(ErrorText)
  {
    var p := Split("6", " ", '/', " ", "0", NoEquals);
    assert SplitText(p) == "6 / 0";
    assert IsSplitOf("6 / 0", p);
    EvaluateSplit("6 / 0", p);
  }

  /** A second operator puts the string outside the pattern: there is no left-to-right chaining. */
  lemma ExampleTwoOperators()
    ensures CalculateFromString("2 + 3 * 4") == Err(ErrorText)
  {
    assert CountOperators("2 + 3 * 4") == 2;
    if InLanguage("2 + 3 * 4") {
      OneOperator("2 + 3 * 4");
    }
  }
}
