/** The crawler's error record: a message and a numeric code, and the text
    its `Error()` method produces for the crawling log. */
module CustomErrors {
  import opened Decimal

  datatype Option<T> = None | Some(value: T)

  datatype CustomError = CustomError(message: string, code: int)

  const ERROR_PREFIX := "Error: "
  const CODE_INFIX := " (Code: "
  const ERROR_SUFFIX := ")"

  /** `Error()`: the message, then the code in decimal, inside the fixed frame
      "Error: <message> (Code: <code>)". */
  function Render(e: CustomError): (s: string)
    ensures |s| > |ERROR_PREFIX| + |CODE_INFIX| + |ERROR_SUFFIX| + |e.message|
    ensures s[..|ERROR_PREFIX|] == ERROR_PREFIX
    ensures s[|ERROR_PREFIX|..|ERROR_PREFIX| + |e.message|] == e.message
    ensures s[|s| - 1] == ')'
  {
    ERROR_PREFIX + (e.message + CODE_INFIX + IntToDecimal(e.code)) + ERROR_SUFFIX
  }

  /** Reads a log line back into the record it renders: the code is the signed
      decimal just before the closing parenthesis, the message everything
      between "Error: " and the " (Code: " that precedes that decimal. */
  function ParseRendered(s: string): Option<CustomError> {
    if |s| <= |ERROR_PREFIX| || s[..|ERROR_PREFIX|] != ERROR_PREFIX || s[|s| - 1] != ')' then
      None
    else
      ParseBody(s[|ERROR_PREFIX|..|s| - 1])
  }

  /** The part of a log line between "Error: " and the closing parenthesis. */
  function ParseBody(body: string): Option<CustomError> {
    var k := DigitRunStart(body);
    if k == |body| then
      None
    else
      var negative := k > 0 && body[k - 1] == '-';
      var j := if negative then k - 1 else k;
      if j < |CODE_INFIX| || body[j - |CODE_INFIX|..j] != CODE_INFIX then
        None
      else
        var magnitude: int := DecimalToNat(body[k..]);
        Some(CustomError(body[..j - |CODE_INFIX|], if negative then -magnitude else magnitude))
  }

  lemma ParseBodyOfNonNegative(message: string, n: nat)
    ensures ParseBody(message + CODE_INFIX + NatToDecimal(n)) == Some(CustomError(message, n))
  {
    var head := message + CODE_INFIX;
    var digits := NatToDecimal(n);
    var body := head + digits;
    DigitRunAfterNonDigit(head, digits);
    DecimalRoundTrip(n);
    assert body[|head|..] == digits;
    assert body[|head| - |CODE_INFIX|..|head|] == CODE_INFIX;
    assert body[..|message|] == message;
  }

  lemma ParseBodyOfNegative(message: string, n: nat)
    requires n > 0
    ensures ParseBody(message + CODE_INFIX + ("-" + NatToDecimal(n))) == Some(CustomError(message, -(n as int)))
  {
    var head := message + CODE_INFIX + "-";
    var digits := NatToDecimal(n);
    var body := head + digits;
    assert body == message + CODE_INFIX + ("-" + digits);
    DigitRunAfterNonDigit(head, digits);
    DecimalRoundTrip(n);
    assert body[|head|..] == digits;
    assert body[|head| - 1] == '-';
    assert body[|head| - 1 - |CODE_INFIX|..|head| - 1] == CODE_INFIX;
    assert body[..|message|] == message;
  }

  lemma ParseRenderedOfFrame(body: string)
    ensures ParseRendered(ERROR_PREFIX + body + ERROR_SUFFIX) == ParseBody(body)
  {
    var s := ERROR_PREFIX + body + ERROR_SUFFIX;
    assert s[..|ERROR_PREFIX|] == ERROR_PREFIX;
    assert s[|ERROR_PREFIX|..|s| - 1] == body;
  }

  lemma ParseBodyOfDecimal(message: string, code: int)
    ensures ParseBody(message + CODE_INFIX + IntToDecimal(code)) == Some(CustomError(message, code))
  {
    IntToDecimalShape(code);
    if code < 0 {
      ParseBodyOfNegative(message, -code);
    } else {
      ParseBodyOfNonNegative(message, code);
    }
  }

  /** Every rendered error can be read back: no two records share a log line. */
  lemma RenderRoundTrip(e: CustomError)
    ensures ParseRendered(Render(e)) == Some(e)
  {
    ParseRenderedOfFrame(e.message + CODE_INFIX + IntToDecimal(e.code));
    ParseBodyOfDecimal(e.message, e.code);
  }

  lemma RenderInjective(e1: CustomError, e2: CustomError)
    ensures Render(e1) == Render(e2) <==> e1 == e2
  {
    RenderRoundTrip(e1);
    RenderRoundTrip(e2);
  }
}
