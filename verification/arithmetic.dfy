/** `calculate`: one binary operation on two numbers, with its two error sentinels. */
module Arithmetic {

  /** A result of `calculate`: a number, or one of the message strings the code returns instead. */
  datatype Outcome = Num(value: real) | Err(message: string)

  /** The sentinel for a division by zero and for a string that fails the input pattern. */
  const ErrorText: string := "Error."

  /** The message for an operator outside the four the calculator knows. */
  const InvalidOption: string := "Invalid option, try again."

  const Operators: set<string> := {"+", "-", "*", "/"}

  /** Models `calculate(num1, operator, num2)`. */
  function Calculate(a: real, op: string, b: real): (r: Outcome)
    ensures r.Err? <==> op !in Operators || (op == "/" && b == 0.0)
    ensures r == Err(ErrorText) <==> op == "/" && b == 0.0
    ensures r == Err(InvalidOption) <==> op !in Operators
    ensures op == "+" ==> r == Num(a + b)
    ensures op == "*" ==> r == Num(a * b)
    ensures op == "-" ==> r.Num? && r.value + b == a
    ensures op == "/" && r.Num? ==> r.value * b == a
  {
    if op == "+" then Num(a + b)
    else if op == "-" then Num(a - b)
    else if op == "/" then
      if b == 0.0 then Err(ErrorText) else Num(a / b)
    else if op == "*" then Num(a * b)
    else Err(InvalidOption)
  }

  /** Subtraction undoes addition, and division by a non-zero number undoes multiplication. */
  lemma CalculateInverses(a: real, b: real)
    ensures Calculate(Calculate(a, "+", b).value, "-", b) == Num(a)
    ensures b != 0.0 ==> Calculate(Calculate(a, "*", b).value, "/", b) == Num(a)
  {
  }
}
