/** Character classes of the calculator's input pattern, and maximal-munch scanning over them. */
module Chars {

  /** The two repeated classes of the pattern: `\d` and `\s`. */
  datatype CharClass = Digit | Space

  /** `\d` in a regular expression without the `u` flag: the ASCII decimal digits only. */
  predicate IsDigit(c: char) {
    '0' <= c <= '9'
  }

  /** `\s`: the ECMAScript WhiteSpace and LineTerminator code points. */
  predicate IsSpace(c: char) {
    || c == '\t' || c == '\n' || c == '\U{B}' || c == '\U{C}' || c == '\r' || c == ' '
    || c == '\U{A0}' || c == '\U{1680}' || ('\U{2000}' <= c <= '\U{200A}')
    || c == '\U{2028}' || c == '\U{2029}' || c == '\U{202F}' || c == '\U{205F}'
    || c == '\U{3000}' || c == '\U{FEFF}'
  }

  predicate InClass(c: char, k: CharClass) {
    match k
    case Digit => IsDigit(c)
    case Space => IsSpace(c)
  }

  predicate AllIn(s: string, k: CharClass) {
    forall i | 0 <= i < |s| :: InClass(s[i], k)
  }

  /** A string cut in two: a run of one class, and what follows it. */
  datatype Cut = Cut(run: string, rest: string)

  /** Splits off the longest prefix of `s` made of class `k` (what a greedy `\d+` or `\s*` consumes). */
  function TakeRun(s: string, k: CharClass): (c: Cut)
    ensures c.run + c.rest == s
    ensures AllIn(c.run, k)
    ensures c.rest == [] || !InClass(c.rest[0], k)
    decreases |s|
  {
    if s != [] && InClass(s[0], k) then
      var tail := TakeRun(s[1..], k);
      assert [s[0]] + tail.run + tail.rest == s;
      Cut([s[0]] + tail.run, tail.rest)
    else
      Cut([], s)
  }

  /** The cut is unique: a run of class `k` followed by nothing, or by a character outside `k`,
      is exactly what `TakeRun` returns. */
  lemma {:induction false} TakeRunExact(run: string, rest: string, k: CharClass)
    requires AllIn(run, k)
    requires rest == [] || !InClass(rest[0], k)
    ensures TakeRun(run + rest, k) == Cut(run, rest)
    decreases |run|
  {
    if run == [] {
      assert run + rest == rest;
    } else {
      assert (run + rest)[1..] == run[1..] + rest;
      TakeRunExact(run[1..], rest, k);
      assert [run[0]] + run[1..] == run;
    }
  }
}
