/** `handleButtonClick` as a pure transition on the display text. The DOM element becomes the
    `display` argument and the returned text, and JavaScript's printing of a number result becomes
    the `show` parameter. */
module Display {
  import opened Chars
  import opened Grammar
  import opened Decimal
  import opened Arithmetic
  import opened Evaluator

  /** The two display texts from which any button starts afresh instead of appending. */
  predicate StartsOver(display: string) {
    display == ErrorText || display == "0"
  }

  /** The text written to the display for an outcome: a message string as it is, a number as
      `show` prints it. */
  function Render(o: Outcome, show: real -> string): (text: string)
    ensures o.Err? ==> text == o.message
    ensures o.Num? ==> text == show(o.value)
  {
    match o
    case Num(x) => show(x)
    case Err(m) => m
  }

  /** Models `handleButtonClick(input)` on the current display text. The reassignments of the
      local `input` in the source never reach the display and have no counterpart here. */
  function Press(display: string, key: string, show: real -> string): (next: string)
    ensures StartsOver(display) ==> next == if key == "C" then "0" else key
    ensures !StartsOver(display) && key == "=" ==> next == Render(CalculateFromString(display), show)
    ensures !StartsOver(display) && key != "=" ==> next == display + key
  {
    if StartsOver(display) then
      if key == "C" then "0" else key
    else if key == "=" then
      Render(CalculateFromString(display), show)
    else
      display + key
  }

  /** The display after pressing the buttons `keys` in order. */
  function Run(display: string, keys: seq<string>, show: real -> string): string
    decreases |keys|
  {
    if keys == [] then display else Run(Press(display, keys[0], show), keys[1..], show)
  }

  /** The one-character keys of the buttons that type `cs`. */
  function Keys(cs: string): (keys: seq<string>)
    ensures |keys| == |cs|
    ensures forall i | 0 <= i < |cs| :: keys[i] == [cs[i]]
  {
    seq(|cs|, i requires 0 <= i < |cs| => [cs[i]])
  }

  /** A non-empty text that does not end in `.` and is not the single character `0` is not a
      start state. */
  lemma NotStartState(text: string)
    requires |text| > 0 && text[|text| - 1] != '.'
    requires |text| > 1 || text[0] != '0'
    ensures !StartsOver(text)
  {
    assert ErrorText[|ErrorText| - 1] == '.';
  }

  /** Pressing two sequences of buttons is pressing the first, then the second. */
  lemma {:induction false} RunConcat(display: string, xs: seq<string>, ys: seq<string>, show: real -> string)
    ensures Run(display, xs + ys, show) == Run(Run(display, xs, show), ys, show)
    decreases |xs|
  {
    if xs != [] {
      assert (xs + ys)[1..] == xs[1..] + ys;
      RunConcat(Press(display, xs[0], show), xs[1..], ys, show);
    } else {
      assert xs + ys == ys;
    }
  }

  lemma RunOne(display: string, key: string, show: real -> string)
    ensures Run(display, [key], show) == Press(display, key, show)
  {
  }

  /** `C` clears only from the two start states; anywhere else it is appended like any key. */
  lemma ClearOnlyFromStart(display: string, show: real -> string)
    ensures Press(display, "C", show) == "0" <==> StartsOver(display)
    ensures !StartsOver(display) ==> Press(display, "C", show) == display + "C"
  {
    if !StartsOver(display) {
      NotStartState(display + "C");
    }
  }

  /** From a start state, every key except `C` replaces the display, `=` included. */
  lemma StartStateReplaces(display: string, key: string, show: real -> string)
    requires StartsOver(display) && key != "C"
    ensures Press(display, key, show) == key
    ensures key == "=" ==> Press(display, key, show) == "="
  {
  }

  /** While composing, digit buttons append their digits. */
  lemma {:induction false} TypeDigits(display: string, cs: string, show: real -> string)
    requires |display| > 0 && !StartsOver(display)
    requires AllIn(cs, Digit)
    ensures Run(display, Keys(cs), show) == display + cs
    decreases |cs|
  {
    if cs != [] {
      var next := display + [cs[0]];
      assert Run(display, Keys(cs), show) == Run(next, Keys(cs[1..]), show) by {
        assert Keys(cs)[0] == [cs[0]];
        assert Keys(cs)[1..] == Keys(cs[1..]);
        assert Press(display, [cs[0]], show) == next;
      }
      assert next[|next| - 1] == cs[0];
      NotStartState(next);
      TypeDigits(next, cs[1..], show);
      assert next + cs[1..] == display + cs;
    }
  }

  /** From the initial display, typing a number without a leading zero shows exactly that number. */
  lemma EnterNumber(ds: string, show: real -> string)
    requires |ds| > 0 && AllIn(ds, Digit) && ds[0] != '0'
    ensures Run("0", Keys(ds), show) == ds
  {
    assert Keys(ds) == [[ds[0]]] + Keys(ds[1..]);
    RunConcat("0", [[ds[0]]], Keys(ds[1..]), show);
    assert Run("0", [[ds[0]]], show) == [ds[0]];
    TypeDigits([ds[0]], ds[1..], show);
    assert [ds[0]] + ds[1..] == ds;
  }

  /** On the initial display, zero keys leave the display at `0`. */
  lemma {:induction false} TypeZeros(zs: string, show: real -> string)
    requires forall i | 0 <= i < |zs| :: zs[i] == '0'
    ensures Run("0", Keys(zs), show) == "0"
    decreases |zs|
  {
    if zs != [] {
      assert Keys(zs)[0] == "0";
      assert Keys(zs)[1..] == Keys(zs[1..]);
      TypeZeros(zs[1..], show);
    }
  }

  /** From the initial display, typing a number with a non-zero value shows its digits with the
      leading zeros swallowed: a suffix of what was typed, with no leading zero and the same value. */
  lemma {:induction false} EnterPositive(ds: string, show: real -> string)
    requires AllIn(ds, Digit) && Value(ds) > 0
    ensures var shown := Run("0", Keys(ds), show);
      && 0 < |shown| <= |ds| && shown == ds[|ds| - |shown|..]
      && AllIn(shown, Digit) && shown[0] != '0' && Value(shown) == Value(ds)
    decreases |ds|
  {
    if ds[0] == '0' {
      var tail := ds[1..];
      assert ds == "0" + tail;
      assert AllIn(tail, Digit) by {
        assert forall i | 0 <= i < |tail| :: tail[i] == ds[i + 1];
      }
      LeadingZero(tail);
      assert Run("0", Keys(ds), show) == Run("0", Keys(tail), show) by {
        assert Keys(ds)[0] == "0";
        assert Keys(ds)[1..] == Keys(tail);
      }
      EnterPositive(tail, show);
      var shown := Run("0", Keys(tail), show);
      assert tail[|tail| - |shown|..] == ds[|ds| - |shown|..];
    } else {
      EnterNumber(ds, show);
    }
  }

  /** Pressing an operator, then digits, then `=` on a composing display evaluates the display
      with the operator and digits appended. */
  lemma TypeOperatorAndDigits(display: string, op: char, rhs: string, show: real -> string)
    requires |display| > 0 && !StartsOver(display)
    requires op != '.' && op != '='
    requires AllIn(rhs, Digit)
    ensures Run(display, [[op]] + Keys(rhs) + ["="], show) == Press(display + [op] + rhs, "=", show)
  {
    var typed := display + [op];
    assert Run(display, [[op]] + Keys(rhs), show) == typed + rhs by {
      RunOne(display, [op], show);
      NotStartState(typed);
      RunConcat(display, [[op]], Keys(rhs), show);
      TypeDigits(typed, rhs, show);
    }
    RunConcat(display, [[op]] + Keys(rhs), ["="], show);
    RunOne(typed + rhs, "=", show);
  }

  /** A digit run, an operator and a digit run, with no spaces, is read as those three groups. */
  lemma EvaluateCompact(lhs: string, op: char, rhs: string)
    requires |lhs| > 0 && AllIn(lhs, Digit)
    requires IsOperator(op)
    requires |rhs| > 0 && AllIn(rhs, Digit)
    ensures CalculateFromString(lhs + [op] + rhs) == Calculate(Value(lhs) as real, [op], Value(rhs) as real)
  {
    CompactSplit(lhs, op, rhs);
  }

  /** From a display showing a number other than the start text `0`, pressing an operator, digits
      and `=` shows the result of `calculate` on the two numbers. */
  lemma EvaluateTyped(ds: string, op: char, rhs: string, show: real -> string)
    requires |ds| > 0 && AllIn(ds, Digit) && ds != "0"
    requires IsOperator(op)
    requires |rhs| > 0 && AllIn(rhs, Digit)
    ensures Run(ds, [[op]] + Keys(rhs) + ["="], show)
         == Render(Calculate(Value(ds) as real, [op], Value(rhs) as real), show)
  {
    assert ds != ErrorText by {
      assert ErrorText[0] == 'E';
    }
    TypeOperatorAndDigits(ds, op, rhs, show);
    var text := ds + [op] + rhs;
    assert text[|text| - 1] == rhs[|rhs| - 1];
    NotStartState(text);
    EvaluateCompact(ds, op, rhs);
  }

  /** Typing `a op b =` on a fresh calculator, with `a` non-zero, shows `calculate(a, op, b)`;
      leading zeros of `a` are swallowed. For example `1 2 + 8 =` shows the printed form of 20. */
  lemma TypeExpression(lhs: string, op: char, rhs: string, show: real -> string)
    requires AllIn(lhs, Digit) && Value(lhs) > 0
    requires IsOperator(op)
    requires |rhs| > 0 && AllIn(rhs, Digit)
    ensures Run("0", Keys(lhs) + [[op]] + Keys(rhs) + ["="], show)
         == Render(Calculate(Value(lhs) as real, [op], Value(rhs) as real), show)
  {
    EnterPositive(lhs, show);
    var shown := Run("0", Keys(lhs), show);
    assert Keys(lhs) + [[op]] + Keys(rhs) + ["="] == Keys(lhs) + ([[op]] + Keys(rhs) + ["="]);
    RunConcat("0", Keys(lhs), [[op]] + Keys(rhs) + ["="], show);
    EvaluateTyped(shown, op, rhs, show);
  }

  /** Typing `a op b =` on a fresh calculator with `a` all zeros shows the sentinel: the zeros
      leave `0` on the display, and the operator then replaces it. */
  lemma TypeZeroExpression(lhs: string, op: char, rhs: string, show: real -> string)
    requires AllIn(lhs, Digit) && Value(lhs) == 0
    requires IsOperator(op)
    requires AllIn(rhs, Digit)
    ensures Run("0", Keys(lhs) + [[op]] + Keys(rhs) + ["="], show) == ErrorText
  {
    ValueZero(lhs);
    TypeZeros(lhs, show);
    assert Keys(lhs) + [[op]] + Keys(rhs) + ["="] == Keys(lhs) + ([[op]] + Keys(rhs) + ["="]);
    RunConcat("0", Keys(lhs), [[op]] + Keys(rhs) + ["="], show);
    ZeroLeftOperandLost(op, rhs, show);
  }

  /** The buttons `1 2 + 8 =` on a fresh calculator show the printed form of 20. */
  lemma ExampleTwelvePlusEight(show: real -> string)
    ensures Run("0", ["1", "2", "+", "8", "="], show) == show(20.0)
  {
    assert ["1", "2", "+", "8", "="] == Keys("12") + [['+']] + Keys("8") + ["="] by {
      assert Keys("12") == ["1", "2"];
      assert Keys("8") == ["8"];
    }
    assert Value("12") == 12 && Value("8") == 8;
    TypeExpression("12", '+', "8", show);
  }

  /** A positive whole-number result, printed in decimal, can be the left operand of the next
      calculation. */
  lemma ChainOnResult(n: nat, op: char, rhs: string, show: real -> string)
    requires n > 0
    requires IsOperator(op)
    requires |rhs| > 0 && AllIn(rhs, Digit)
    ensures Run(Digits(n), [[op]] + Keys(rhs) + ["="], show)
         == Render(Calculate(n as real, [op], Value(rhs) as real), show)
  {
    ValueOfDigits(n);
    EvaluateTyped(Digits(n), op, rhs, show);
  }

  /** On the display `0` an operator replaces the zero, so `0 op b =` is outside the pattern and
      shows the sentinel: a left operand of zero cannot be entered. */
  lemma ZeroLeftOperandLost(op: char, rhs: string, show: real -> string)
    requires IsOperator(op)
    requires AllIn(rhs, Digit)
    ensures Run("0", [[op]] + Keys(rhs) + ["="], show) == ErrorText
  {
    var text := [op] + rhs;
    assert Run("0", [[op]] + Keys(rhs) + ["="], show) == Run([op], Keys(rhs) + ["="], show) by {
      assert [[op]] + Keys(rhs) + ["="] == [[op]] + (Keys(rhs) + ["="]);
      RunConcat("0", [[op]], Keys(rhs) + ["="], show);
      RunOne("0", [op], show);
    }
    assert Run([op], Keys(rhs) + ["="], show) == Press(text, "=", show) by {
      RunConcat([op], Keys(rhs), ["="], show);
      NotStartState([op]);
      TypeDigits([op], rhs, show);
      RunOne(text, "=", show);
    }
    assert text[|text| - 1] == if rhs == [] then op else rhs[|rhs| - 1];
    NotStartState(text);
    OutsidePatternStart(text);
    EqualsOutsidePattern(text, show);
  }

  /** Pressing `=` while composing a text outside the pattern shows the sentinel. */
  lemma EqualsOutsidePattern(text: string, show: real -> string)
    requires !StartsOver(text) && !InLanguage(text)
    ensures Press(text, "=", show) == ErrorText
  {
  }

  /** A text that does not begin with a digit is outside the pattern. */
  lemma OutsidePatternStart(text: string)
    requires text == [] || !IsDigit(text[0])
    ensures !InLanguage(text)
  {
    if InLanguage(text) {
      InLanguageEnds(text);
    }
  }

  /** A text that ends in `C` is outside the pattern. */
  lemma OutsidePatternEnd(text: string)
    requires |text| > 0 && text[|text| - 1] == 'C'
    ensures !InLanguage(text)
  {
    if InLanguage(text) {
      InLanguageEnds(text);
    }
  }

  lemma PressClearThenEquals(display: string, show: real -> string)
    requires !StartsOver(display)
    ensures Run(display, ["C", "="], show) == Press(display + "C", "=", show)
  {
    ClearOnlyFromStart(display, show);
    assert ["C", "="] == ["C"] + ["="];
    RunConcat(display, ["C"], ["="], show);
    RunOne(display, "C", show);
    RunOne(display + "C", "=", show);
  }

  /** `C` pressed while composing is appended, and the next `=` shows the sentinel. */
  lemma ClearThenEquals(display: string, show: real -> string)
    requires !StartsOver(display)
    ensures Run(display, ["C", "="], show) == ErrorText
  {
    PressClearThenEquals(display, show);
    OutsidePatternEnd(display + "C");
    NotStartState(display + "C");
    EqualsOutsidePattern(display + "C", show);
  }

  /** The display never becomes empty when every key is non-empty and every printed number is
      non-empty. */
  lemma {:induction false} NeverEmpty(display: string, keys: seq<string>, show: real -> string)
    requires |display| > 0
    requires forall i | 0 <= i < |keys| :: |keys[i]| > 0
    requires forall x: real :: |show(x)| > 0
    ensures |Run(display, keys, show)| > 0
    decreases |keys|
  {
    if keys != [] {
      var next := Press(display, keys[0], show);
      if !StartsOver(display) && keys[0] == "=" {
        var o := CalculateFromString(display);
        assert o.Err? ==> o.message == ErrorText;
      }
      NeverEmpty(next, keys[1..], show);
    }
  }
}
