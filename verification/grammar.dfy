/** The input pattern of `isInputValid` and `calculateFromString`: a digit run, optional spaces,
    one operator, optional spaces, a digit run, and an optional `=` with optional spaces around it,
    anchored at both ends. It is stated twice: as a language (the strings that can be read as the
    pattern's parts) and as a left-to-right scanner that also yields the three captured groups. */
module Grammar {
  import opened Chars

  datatype Option<T> = None | Some(value: T)

  /** The operator class of the pattern: `+`, `-`, `*` or `/`. */
  predicate IsOperator(c: char) {
    c == '+' || c == '-' || c == '*' || c == '/'
  }

  /** The optional group `(?:\s*=\s*)` closing the pattern. */
  datatype Trailer = NoEquals | Equals(before: string, after: string)

  /** One reading of a string as the pattern's parts: left digits, gap, operator, gap,
      right digits, trailer. */
  datatype Split = Split(lhs: string, ws1: string, op: char, ws2: string, rhs: string, trailer: Trailer)

  function TrailerText(t: Trailer): string {
    match t
    case NoEquals => []
    case Equals(before, after) => before + "=" + after
  }

  function SplitText(p: Split): string {
    p.lhs + (p.ws1 + ([p.op] + (p.ws2 + (p.rhs + TrailerText(p.trailer)))))
  }

  predicate TrailerWellFormed(t: Trailer) {
    t.Equals? ==> AllIn(t.before, Space) && AllIn(t.after, Space)
  }

  /** Every part is drawn from the class the pattern gives it; both digit runs are non-empty. */
  predicate WellFormed(p: Split) {
    && |p.lhs| > 0 && AllIn(p.lhs, Digit)
    && AllIn(p.ws1, Space)
    && IsOperator(p.op)
    && AllIn(p.ws2, Space)
    && |p.rhs| > 0 && AllIn(p.rhs, Digit)
    && TrailerWellFormed(p.trailer)
  }

  predicate IsSplitOf(s: string, p: Split) {
    WellFormed(p) && SplitText(p) == s
  }

  /** The strings the anchored pattern matches. */
  ghost predicate InLanguage(s: string) {
    exists p :: IsSplitOf(s, p)
  }

  /** Reads the trailer: nothing at all, or spaces, one `=`, spaces. */
  function ScanTrailer(t: string): (r: Option<Trailer>)
    ensures r.Some? ==> TrailerWellFormed(r.value) && TrailerText(r.value) == t
  {
    if t == [] then Some(NoEquals)
    else
      var gap := TakeRun(t, Space);
      if gap.rest != [] && gap.rest[0] == '=' && AllIn(gap.rest[1..], Space) then
        assert gap.run + "=" + gap.rest[1..] == t by {
          assert gap.rest == "=" + gap.rest[1..];
        }
        Some(Equals(gap.run, gap.rest[1..]))
      else
        None
  }

  /** What follows the operator: the gap, the right digits and the trailer. */
  datatype RightPart = RightPart(ws2: string, rhs: string, trailer: Trailer)

  function RightText(q: RightPart): string {
    q.ws2 + (q.rhs + TrailerText(q.trailer))
  }

  predicate RightWellFormed(q: RightPart) {
    AllIn(q.ws2, Space) && |q.rhs| > 0 && AllIn(q.rhs, Digit) && TrailerWellFormed(q.trailer)
  }

  /** Reads what follows the operator. */
  function ScanRight(t: string): (r: Option<RightPart>)
    ensures r.Some? ==> RightWellFormed(r.value) && RightText(r.value) == t
  {
    var gap := TakeRun(t, Space);
    var right := TakeRun(gap.rest, Digit);
    if right.run == [] then None
    else
      match ScanTrailer(right.rest)
      case None => None
      case Some(tr) => Some(RightPart(gap.run, right.run, tr))
  }

  /** Greedy left-to-right reading of the pattern; `Some` carries the parts, and so the groups. */
  function Scan(s: string): (r: Option<Split>)
    ensures r.Some? ==> IsSplitOf(s, r.value)
  {
    var left := TakeRun(s, Digit);
    var gap := TakeRun(left.rest, Space);
    if left.run == [] || gap.rest == [] || !IsOperator(gap.rest[0]) then None
    else
      match ScanRight(gap.rest[1..])
      case None => None
      case Some(q) =>
        assert gap.rest == [gap.rest[0]] + gap.rest[1..];
        Some(Split(left.run, gap.run, gap.rest[0], q.ws2, q.rhs, q.trailer))
  }

  lemma ScanTrailerComplete(t: Trailer)
    requires TrailerWellFormed(t)
    ensures ScanTrailer(TrailerText(t)) == Some(t)
  {
    match t
    case NoEquals =>
    case Equals(before, after) =>
      assert before + "=" + after == before + ("=" + after);
      TakeRunExact(before, "=" + after, Space);
      assert ("=" + after)[1..] == after;
  }

  lemma ScanRightComplete(q: RightPart)
    requires RightWellFormed(q)
    ensures ScanRight(RightText(q)) == Some(q)
  {
    var tt := TrailerText(q.trailer);
    assert (q.rhs + tt)[0] == q.rhs[0];
    TakeRunExact(q.ws2, q.rhs + tt, Space);
    assert tt != [] ==> tt[0] == if q.trailer.before == [] then '=' else q.trailer.before[0];
    TakeRunExact(q.rhs, tt, Digit);
    ScanTrailerComplete(q.trailer);
  }

  /** The scanner finds every reading of the pattern, and finds it whole. */
  lemma ScanComplete(p: Split)
    requires WellFormed(p)
    ensures Scan(SplitText(p)) == Some(p)
  {
    var q := RightPart(p.ws2, p.rhs, p.trailer);
    var r2 := [p.op] + RightText(q);
    var r1 := p.ws1 + r2;
    assert TakeRun(SplitText(p), Digit) == Cut(p.lhs, r1) by {
      assert SplitText(p) == p.lhs + r1;
      assert r1[0] == if p.ws1 == [] then p.op else p.ws1[0];
      TakeRunExact(p.lhs, r1, Digit);
    }
    assert TakeRun(r1, Space) == Cut(p.ws1, r2) by {
      TakeRunExact(p.ws1, r2, Space);
    }
    assert r2[1..] == RightText(q);
    ScanRightComplete(q);
  }

  /** A string has at most one reading, and the scanner returns it. */
  lemma ScanUnique(s: string)
    ensures forall p | IsSplitOf(s, p) :: Scan(s) == Some(p)
  {
    forall p | IsSplitOf(s, p)
      ensures Scan(s) == Some(p)
    {
      ScanComplete(p);
    }
  }

  /** Models `isInputValid`: the anchored pattern matches. */
  predicate IsInputValid(s: string): (b: bool)
    ensures b ==> InLanguage(s)
  {
    Scan(s).Some?
  }

  /** `isInputValid` holds exactly for the strings that have a reading as the pattern's parts. */
  lemma IsInputValidExactly(s: string)
    ensures IsInputValid(s) <==> InLanguage(s)
  {
    ScanUnique(s);
    if IsInputValid(s) {
      assert IsSplitOf(s, Scan(s).value);
    }
  }

  /** The groups of a match are determined by the string: two readings of one string agree. */
  lemma SplitUnique(s: string, p: Split, q: Split)
    requires IsSplitOf(s, p) && IsSplitOf(s, q)
    ensures p == q
  {
    ScanUnique(s);
  }

  /** Two digit runs around an operator, with no spaces and no `=`, are a reading of the pattern. */
  lemma CompactSplit(lhs: string, op: char, rhs: string)
    requires |lhs| > 0 && AllIn(lhs, Digit)
    requires IsOperator(op)
    requires |rhs| > 0 && AllIn(rhs, Digit)
    ensures IsSplitOf(lhs + [op] + rhs, Split(lhs, [], op, [], rhs, NoEquals))
  {
    assert SplitText(Split(lhs, [], op, [], rhs, NoEquals)) == lhs + [op] + rhs;
  }

  /** A matching string begins with a digit and ends with a digit, a space or `=`. */
  lemma InLanguageEnds(s: string)
    requires InLanguage(s)
    ensures |s| > 0 && IsDigit(s[0])
    ensures IsDigit(s[|s| - 1]) || IsSpace(s[|s| - 1]) || s[|s| - 1] == '='
  {
    var p :| IsSplitOf(s, p);
    var q := RightPart(p.ws2, p.rhs, p.trailer);
    var front := p.lhs + (p.ws1 + [p.op]);
    assert s == front + RightText(q);
    assert s[0] == p.lhs[0];
    RightTextEnds(q);
  }

  lemma RightTextEnds(q: RightPart)
    requires RightWellFormed(q)
    ensures var t := RightText(q); |t| > 0 && (IsDigit(t[|t| - 1]) || IsSpace(t[|t| - 1]) || t[|t| - 1] == '=')
  {
    match q.trailer
    case NoEquals =>
      assert RightText(q) == q.ws2 + q.rhs;
    case Equals(before, after) =>
      assert RightText(q) == (q.ws2 + q.rhs + before + "=") + after;
  }

  /** A character the pattern can match anywhere: a digit, a space, an operator or `=`. */
  predicate InAlphabet(c: char) {
    IsDigit(c) || IsSpace(c) || IsOperator(c) || c == '='
  }

  lemma AlphabetConcat(a: string, b: string)
    requires forall i | 0 <= i < |a| :: InAlphabet(a[i])
    requires forall i | 0 <= i < |b| :: InAlphabet(b[i])
    ensures forall i | 0 <= i < |a + b| :: InAlphabet((a + b)[i])
  {
    forall i | 0 <= i < |a + b|
      ensures InAlphabet((a + b)[i])
    {
      if i >= |a| {
        assert (a + b)[i] == b[i - |a|];
      }
    }
  }

  /** Every character of a matching string is a digit, a space, an operator or `=`; in particular
      a string holding `.` or `%` never matches. */
  lemma PatternAlphabet(s: string)
    requires InLanguage(s)
    ensures forall i | 0 <= i < |s| :: InAlphabet(s[i])
  {
    var p :| IsSplitOf(s, p);
    var tt := TrailerText(p.trailer);
    assert forall i | 0 <= i < |tt| :: InAlphabet(tt[i]) by {
      match p.trailer {
        case NoEquals =>
        case Equals(before, after) =>
          AlphabetConcat(before, "=");
          AlphabetConcat(before + "=", after);
      }
    }
    AlphabetConcat(p.rhs, tt);
    AlphabetConcat(p.ws2, p.rhs + tt);
    AlphabetConcat([p.op], p.ws2 + (p.rhs + tt));
    AlphabetConcat(p.ws1, [p.op] + (p.ws2 + (p.rhs + tt)));
    AlphabetConcat(p.lhs, p.ws1 + ([p.op] + (p.ws2 + (p.rhs + tt))));
  }

  /** The number of operator characters in a string. */
  function CountOperators(s: string): nat
    decreases |s|
  {
    if s == [] then 0 else (if IsOperator(s[0]) then 1 else 0) + CountOperators(s[1..])
  }

  lemma {:induction false} CountConcat(a: string, b: string)
    ensures CountOperators(a + b) == CountOperators(a) + CountOperators(b)
    decreases |a|
  {
    if a == [] {
      assert a + b == b;
    } else {
      assert (a + b)[1..] == a[1..] + b;
      CountConcat(a[1..], b);
    }
  }

  lemma {:induction false} CountInClass(s: string, k: CharClass)
    requires AllIn(s, k)
    ensures CountOperators(s) == 0
    decreases |s|
  {
    if s != [] {
      CountInClass(s[1..], k);
    }
  }

  /** A matching string holds exactly one operator character: the pattern has no room for a
      second operation, nor for a sign on either number. */
  lemma OneOperator(s: string)
    requires InLanguage(s)
    ensures CountOperators(s) == 1
  {
    var p :| IsSplitOf(s, p);
    var q := RightPart(p.ws2, p.rhs, p.trailer);
    CountInClass(p.lhs, Digit);
    CountInClass(p.ws1, Space);
    CountInClass(p.ws2, Space);
    CountInClass(p.rhs, Digit);
    match p.trailer {
      case NoEquals =>
      case Equals(before, after) =>
        CountInClass(before, Space);
        CountInClass(after, Space);
        CountConcat(before, "=");
        CountConcat(before + "=", after);
    }
    CountConcat(p.rhs, TrailerText(p.trailer));
    CountConcat(p.ws2, p.rhs + TrailerText(p.trailer));
    CountConcat([p.op], RightText(q));
    CountConcat(p.ws1, [p.op] + RightText(q));
    CountConcat(p.lhs, p.ws1 + ([p.op] + RightText(q)));
  }
}
