/** How a sign timeout is recognised: by the text of the error. */
module SignTimeouts {
  /** A thrown error: whether it is an upstream-unavailable error, and its message. */
  datatype Thrown = Thrown(upstream: bool, message: string)

  const PREFIX := "sign did not complete within "
  const SUFFIX := "ms"

  predicate IsDigit(c: char) {
    '0' <= c <= '9'
  }

  predicate AllDigits(s: string) {
    forall i :: 0 <= i < |s| ==> IsDigit(s[i])
  }

  /** The pattern: the prefix, one or more digits, the suffix. */
  predicate MatchesTimeout(message: string) {
    |message| > |PREFIX| + |SUFFIX| &&
    message[..|PREFIX|] == PREFIX &&
    message[|message| - |SUFFIX|..] == SUFFIX &&
    AllDigits(message[|PREFIX|..|message| - |SUFFIX|])
  }

  predicate IsSignTimeout(e: Thrown) {
    e.upstream && MatchesTimeout(e.message)
  }

  /** A positive duration as text: whole, fractional, or tiny in exponent form. */
  datatype Millis = Whole(n: nat) | Fractional(n: nat, decimals: string) | Tiny(n: nat, exponent: nat)

  function Digits(n: nat): (s: string)
    ensures s != [] && AllDigits(s)
  {
    if n < 10 then [('0' as int + n) as char] else Digits(n / 10) + [('0' as int + n % 10) as char]
  }

  function Render(ms: Millis): string {
    match ms
    case Whole(n) => Digits(n)
    case Fractional(n, decimals) => Digits(n) + "." + decimals
    case Tiny(n, exponent) => Digits(n) + "e-" + Digits(exponent)
  }

  /** What a sign call that outlasts its budget throws. */
  function DeadlineError(signMs: Millis): Thrown {
    Thrown(true, PREFIX + Render(signMs) + SUFFIX)
  }

  lemma MiddleOf(a: string, b: string, c: string)
    ensures (a + b + c)[..|a|] == a
    ensures (a + b + c)[|a + b + c| - |c|..] == c
    ensures (a + b + c)[|a|..|a + b + c| - |c|] == b
  {}

  /** The number a string of digits denotes in decimal. */
  function Decimal(s: string): nat
    requires AllDigits(s)
  {
    if s == [] then 0 else 10 * Decimal(s[..|s| - 1]) + (s[|s| - 1] as int - '0' as int)
  }

  /** Numbers are written in decimal. */
  lemma {:induction false} DigitsAreDecimal(n: nat)
    ensures Decimal(Digits(n)) == n
  {
    if n >= 10 {
      DigitsAreDecimal(n / 10);
      assert Digits(n)[..|Digits(n)| - 1] == Digits(n / 10);
    } else {
      assert Digits(n)[..0] == [];
    }
  }

  /** The messages that count as sign timeouts, written out. */
  lemma TimeoutMessages(message: string)
    ensures MatchesTimeout(message) <==>
            exists digits :: digits != [] && AllDigits(digits) && message == "sign did not complete within " + digits + "ms"
  {
    if MatchesTimeout(message) {
      var digits := message[|PREFIX|..|message| - |SUFFIX|];
      assert message == PREFIX + digits + SUFFIX;
    }
    if digits :| digits != [] && AllDigits(digits) && message == "sign did not complete within " + digits + "ms" {
      MiddleOf(PREFIX, digits, SUFFIX);
    }
  }

  /** The error of a whole budget, written out. */
  lemma WholeBudgetMessage(n: nat)
    ensures DeadlineError(Whole(n)) == Thrown(true, "sign did not complete within " + Digits(n) + "ms")
  {}

  /** The budget's own error counts as a sign timeout exactly when the budget is a
      whole number of milliseconds. */
  lemma TimeoutRecognisedIff(signMs: Millis)
    ensures IsSignTimeout(DeadlineError(signMs)) <==> signMs.Whole?
  {
    var middle := Render(signMs);
    MiddleOf(PREFIX, middle, SUFFIX);
    match signMs {
      case Whole(n) =>
      case Fractional(n, decimals) => assert middle[|Digits(n)|] == '.';
      case Tiny(n, exponent) => assert middle[|Digits(n)|] == 'e';
    }
  }
}
