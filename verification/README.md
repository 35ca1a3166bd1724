# calculator-js, modelled in Dafny

This project models the logic of a small browser calculator, `index.js`. The calculator has one
text display and a row of buttons. There are four pieces of logic:

- `isInputValid` checks the display text against one anchored regular expression. The text must be
  digits, optional whitespace, one of `+ - * /`, optional whitespace, digits, and optionally
  whitespace, `=` and whitespace at the end.
- `calculateFromString` reads the two digit groups and the operator out of a valid text and hands
  them to `calculate`. Any other text gives the sentinel `"Error."`.
- `calculate` performs one binary operation. Division by zero gives `"Error."`. An unknown operator
  gives `"Invalid option, try again."`.
- `handleButtonClick` maps the current display text and one button label to the next display text.

Modules, one per concern of the source file:

- `Chars`: the character classes `\d` and `\s` and a greedy run splitter, `TakeRun`.
- `Grammar`: the pattern as a language (`InLanguage`: the strings that have a reading as a `Split`)
  and as a scanner (`Scan`). `IsInputValid` is proved to hold exactly on the language
  (`IsInputValidExactly`). The reading of a string is proved unique, so the regular expression's
  groups are well defined.
- `Decimal`: the value of a digit run (`Value`, which is what `parseFloat` reads from a `\d+`
  group) and the canonical decimal text of a natural number (`Digits`).
- `Arithmetic`: the result type `Outcome = Num(real) | Err(string)` and `Calculate`.
- `Evaluator`: `CalculateFromString`.
- `Display`: `Press`, the button handler as a pure transition function. `Run` presses a sequence
  of buttons, and the lemmas about whole key sequences are stated with it.

The display element becomes the `display` argument and the returned text. Writing a number into the
display is JavaScript's number-to-string conversion. It is the `show: real -> string` parameter of
`Press`. Every display lemma holds for any printing function except `NeverEmpty`, which needs one
that never prints the empty string. Message strings are written as they are.

The source has no backspace, no keyboard handling and no result formatting beyond the conversion
done by assigning a number to the display, so the model has none either.

What the code does that a fuller calculator would not, each proved as a lemma about the model:

- A text with two operators, such as `2 + 3 * 4`, is outside the pattern and evaluates to
  `"Error."`. There is no left-to-right chaining (`ExampleTwoOperators`, `OneOperator`).
- There is no `%` and no `.`: every character of a valid text is a digit, a space, an operator or
  `=`, so a text holding a decimal point or a percent sign evaluates to `"Error."`
  (`PatternAlphabet`).
- `C` clears the display only when it shows `"0"` or `"Error."`. Anywhere else `C` is appended
  like any other label, and the next `=` then shows `"Error."` (`ClearOnlyFromStart`,
  `ClearThenEquals`).
- On the display `"0"` every label replaces the text, `=` and the operators included. So a left
  operand of zero cannot be entered: `0 + 5 =` shows `"Error."`, and so does `0 0 + 5 =`. Leading
  zeros of a non-zero left operand are swallowed instead (`ZeroLeftOperandLost`,
  `TypeZeroExpression`, `TypeExpression`).

## Model

| member | source | states |
|---|---|---|
| Chars.TakeRun | index.js:11 | a greedy `\d+` or `\s*` takes the longest prefix of its class: the run and the rest rebuild the input, the run is all in the class, and the rest does not start with a class character |
| Chars.TakeRunExact | index.js:11 | the greedy cut is unique: any run of the class followed by a non-class character is exactly the cut |
| Grammar.ScanTrailer | index.js:11 | the optional `\s*=\s*` tail is read as spaces, one `=`, spaces, and the pieces rebuild the tail |
| Grammar.Scan | index.js:11 | whatever the scanner accepts is a reading of the string as the pattern's parts |
| Grammar.ScanComplete | index.js:11 | every reading of the pattern is found by the scanner, with the same parts |
| Grammar.ScanUnique | index.js:73-77 | a string has at most one reading, and the scanner returns it, so `match[1]`, `match[2]` and `match[3]` are determined by the string |
| Grammar.IsInputValid | index.js:10-13 | whatever `isInputValid` accepts has a reading as the pattern's parts; the converse is `Grammar.IsInputValidExactly` |
| Grammar.IsInputValidExactly | index.js:10-13 | `isInputValid` holds exactly when the string has a reading as digits, spaces, one of `+ - * /`, spaces, digits and an optional spaced `=` |
| Grammar.SplitUnique | index.js:73-77 | two readings of one string are equal |
| Grammar.InLanguageEnds | index.js:11 | a valid string starts with a digit and ends with a digit, a space or `=` |
| Grammar.CompactSplit | index.js:11 | digits, an operator and digits with no spaces form a valid reading |
| Grammar.PatternAlphabet | index.js:11 | every character of a valid string is a digit, a space, one of `+ - * /` or `=`; a string holding `.` or `%` is never valid |
| Grammar.OneOperator | index.js:11 | a valid string contains exactly one operator character: no second operation and no sign on either number |
| Decimal.Value | index.js:75-77 | the number `parseFloat` reads from a run of k digits is below 10^k; its exact value is pinned by `Decimal.ValueOfDigits`, `Decimal.LeadingZero` and `Decimal.ValueZero` |
| Decimal.Digits | index.js:57 | the printed form of a natural number is canonical: non-empty digits with no leading zero except `0` itself |
| Decimal.ValueOfDigits | index.js:75-77 | reading back the printed form of a number gives the number |
| Decimal.DigitsOfValue | index.js:75-77 | printing the value of a canonical digit run gives the run back |
| Decimal.LeadingZero | index.js:75-77 | a leading zero does not change the value read from a digit run |
| Decimal.ValueZero | index.js:30 | a digit run reads as zero exactly when every digit is `0` |
| Arithmetic.Calculate | index.js:23-39 | the result is an error exactly for an unknown operator or a zero divisor; `"Error."` exactly for a zero divisor; the unknown-operator message exactly for an operator outside `+ - * /`; otherwise sum, product, a difference that adds back to the left operand, and a quotient that multiplies back to it |
| Arithmetic.CalculateInverses | index.js:25-35 | subtraction undoes addition, and division by a non-zero number undoes multiplication |
| Evaluator.CalculateFromString | index.js:71-82 | a string outside the pattern gives `"Error."`; a valid one gives `calculate` on the values of its two digit groups and its operator; the unknown-operator message never comes out |
| Evaluator.ErrorTextExactly | index.js:71-82 | `"Error."` comes out exactly for a string outside the pattern or a division whose right group is all zeros |
| Evaluator.EvaluateSplit | index.js:72-78 | any one reading of a string fixes its result |
| Evaluator.ExampleDivideByZero | index.js:29-32 | `6 / 0` gives `"Error."` |
| Evaluator.ExampleTwoOperators | index.js:11 | `2 + 3 * 4` gives `"Error."` |
| Display.Render | index.js:57 | an error outcome is written as its message, a number as the printing function shows it |
| Display.Press | index.js:46-63 | from `"0"` or `"Error."`, `C` shows `"0"` and every other label replaces the display; elsewhere `=` shows the evaluated display and every other label is appended |
| Display.NotStartState | index.js:49-52 | a non-empty text not ending in `.` and not the single character `0` is neither start state |
| Display.ClearOnlyFromStart | index.js:49-61 | `C` yields `"0"` exactly from the two start states, and anywhere else is appended |
| Display.StartStateReplaces | index.js:49-54 | from a start state, every label except `C` replaces the display, `=` included |
| Display.TypeDigits | index.js:59-61 | digit buttons pressed while composing append their digits |
| Display.EnterNumber | index.js:49-61 | on a fresh display, typing a number without a leading zero shows that number |
| Display.TypeOperatorAndDigits | index.js:55-61 | an operator, digits and `=` pressed while composing evaluate the display with the operator and digits appended |
| Display.EvaluateCompact | index.js:71-78 | digits, operator, digits typed without spaces evaluate to `calculate` on the two values |
| Display.EvaluateTyped | index.js:46-82 | from a display showing a number other than `"0"`, an operator, digits and `=` show `calculate` on the two numbers |
| Display.TypeZeros | index.js:49-54 | on `"0"`, zero keys leave the display at `"0"` |
| Display.EnterPositive | index.js:49-61 | on `"0"`, typing a number with a non-zero value shows it with its leading zeros swallowed: a suffix of the typed digits, no leading zero, the same value |
| Display.TypeExpression | index.js:46-82 | on a fresh display, typing `a op b =` with `a` non-zero, leading zeros allowed, shows `calculate(a, op, b)` |
| Display.TypeZeroExpression | index.js:46-82 | on a fresh display, typing `a op b =` with `a` all zeros shows `"Error."`: the zeros leave `"0"` and the operator replaces it |
| Display.ExampleTwelvePlusEight | index.js:46-82 | the buttons `1 2 + 8 =` on a fresh display show the printed form of 20 |
| Display.ChainOnResult | index.js:55-58 | a positive whole-number result, printed in decimal, works as the left operand of the next calculation |
| Display.ZeroLeftOperandLost | index.js:49-53 | on `"0"`, `op b =` shows `"Error."`, because the operator replaced the zero |
| Display.EqualsOutsidePattern | index.js:55-57 | `=` on a composing display outside the pattern shows `"Error."` |
| Display.OutsidePatternStart | index.js:11 | a text that does not begin with a digit is outside the pattern |
| Display.OutsidePatternEnd | index.js:11 | a text ending in `C` is outside the pattern |
| Display.ClearThenEquals | index.js:55-61 | `C` then `=` while composing shows `"Error."` |
| Display.NeverEmpty | index.js:46-63 | with non-empty labels and a printing function that never prints the empty string, the display never becomes empty |

## Left out

- DOM lookup and listener registration (index.js:1-2, index.js:84-88). This is wiring with no logic.
  The button labels come from the page's markup, which is not part of this model, so `Press` accepts
  any label.
- JavaScript's number-to-string conversion when a result is assigned to the display (index.js:57).
  It is the `show` parameter. `Decimal.Digits` gives the printed form only for non-negative whole
  numbers up to 2^53. `Display.ChainOnResult` does not mention `show`: it starts from a display that
  already holds `Digits(n)`, so it applies to a printed result only when `show` printed it that way.
- Decimal.Digits: prints every natural number in full. JavaScript does so only up to 2^53; above it
  prints the shortest digits that round-trip the double (`2**60` prints as `1152921504606847000`),
  and from 10^21 up it uses exponent form.
- Arithmetic.Calculate: works on exact reals, not IEEE-754 doubles. Rounding, overflow to
  `Infinity` and `-0` are not modelled.
- Evaluator.CalculateFromString: the operands are the exact values of the digit runs. `parseFloat`
  rounds runs above 2^53 to the nearest double, and that rounding is not modelled.
- The regular-expression engine. The pattern is stated directly as a language and a scanner.
- The reassignments of the local `input` in `handleButtonClick` (index.js:54, index.js:58,
  index.js:61). They never reach the display, so they have no counterpart.
