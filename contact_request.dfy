/**
 * The contact-request endpoint: it reads a JSON body and answers 400 for
 * the first failed check (required fields, e-mail shape, GPU count, use
 * case), 200 when every check passes, and 500 when the body cannot be read.
 */
module ContactRequest {
  import opened Wrappers
  import opened Text

  /**
   * A JSON value as the handler sees it. A number and an array carry the
   * text `String(value)` gives them, which is all the handler reads of them.
   */
  datatype Json = JNull | JBool(b: bool) | JNum(text: string) | JStr(s: string) | JArr(text: string)
                | JObj(fields: map<string, Json>)

  /** A property of the body: missing (`undefined`) unless the body is an object that has it. */
  function Field(body: Json, key: string): Option<Json> {
    if body.JObj? && key in body.fields then Some(body.fields[key]) else None
  }

  /** JavaScript truthiness of a property; `undefined` is falsy. */
  predicate Truthy(v: Option<Json>) {
    match v
    case None => false
    case Some(JNull) => false
    case Some(JBool(b)) => b
    case Some(JNum(t)) => t != "0"
    case Some(JStr(s)) => s != ""
    case Some(JArr(_)) => true
    case Some(JObj(_)) => true
  }

  /** `String(value)`, which both `RegExp.test` and `parseInt` apply to their argument. */
  function StringOf(v: Option<Json>): string {
    match v
    case None => "undefined"
    case Some(JNull) => "null"
    case Some(JBool(b)) => if b then "true" else "false"
    case Some(JNum(t)) => t
    case Some(JStr(s)) => s
    case Some(JArr(t)) => t
    case Some(JObj(_)) => "[object Object]"
  }

  /** `[^\s@]+` over `s[a..b]`: non-empty, with no white space and no `@`. */
  predicate Plain(s: string, a: nat, b: nat) {
    a < b <= |s| && forall k :: a <= k < b ==> s[k] != '@' && !IsJsSpace(s[k])
  }

  /**
   * `/^[^\s@]+@[^\s@]+\.[^\s@]+$/`: a local part, `@`, a domain part, `.`
   * and a last part, none of them empty and none holding white space or `@`.
   */
  predicate EmailPattern(s: string) {
    exists i, j :: 0 <= i < j < |s| && s[i] == '@' && s[j] == '.' &&
      Plain(s, 0, i) && Plain(s, i + 1, j) && Plain(s, j + 1, |s|)
  }

  predicate IsAt(c: char) { c == '@' }

  /**
   * The check the handler runs, decided left to right: the text before the
   * first `@` is plain, and so is the rest, which has a `.` with something
   * on each side.
   */
  predicate ValidEmail(s: string) {
    var at := FirstWhere(s, IsAt);
    at.Some? && Plain(s, 0, at.value) && Plain(s, at.value + 1, |s|) &&
    at.value + 4 <= |s| && '.' in s[at.value + 2..|s| - 1]
  }

  /** The left-to-right check accepts exactly the texts the pattern matches. */
  lemma ValidEmailMatchesPattern(s: string)
    ensures ValidEmail(s) <==> EmailPattern(s)
  {
    if ValidEmail(s) {
      ValidEmailIsPattern(s);
    }
    if EmailPattern(s) {
      PatternIsValidEmail(s);
    }
  }

  lemma ValidEmailIsPattern(s: string)
    requires ValidEmail(s)
    ensures EmailPattern(s)
  {
    var i := FirstWhere(s, IsAt).value;
    assert IsAt(s[i]);
    var inner := s[i + 2..|s| - 1];
    var m :| 0 <= m < |inner| && inner[m] == '.';
    var j := i + 2 + m;
    assert s[j] == inner[m];
  }

  lemma PatternIsValidEmail(s: string)
    requires EmailPattern(s)
    ensures ValidEmail(s)
  {
    var i, j :| 0 <= i < j < |s| && s[i] == '@' && s[j] == '.' &&
      Plain(s, 0, i) && Plain(s, i + 1, j) && Plain(s, j + 1, |s|);
    FirstWhereAt(s, IsAt, i);
    assert s[i + 2..|s| - 1][j - i - 2] == s[j];
    assert Plain(s, i + 1, |s|) by {
      forall k | i + 1 <= k < |s|
        ensures s[k] != '@' && !IsJsSpace(s[k])
      {
        if k == j {
          DigitIsNotSpace('.');
        }
      }
    }
  }

  /** `i` is the first position satisfying `p` when it does and none before it does. */
  lemma {:induction false} FirstWhereAt<T>(s: seq<T>, p: T -> bool, i: nat)
    requires i < |s| && p(s[i])
    requires forall k :: 0 <= k < i ==> !p(s[k])
    ensures FirstWhere(s, p) == Some(i)
  {
    if i > 0 {
      FirstWhereAt(s[1..], p, i - 1);
    }
  }

  /** `parseInt(gpuCount)` is a number from 1 to 20000. */
  predicate GpuCountOk(n: JsNum) {
    n.Num? && !(n.value < 1.0) && !(n.value > 20000.0)
  }

  const ValidUseCases: seq<string> := ["baremetal", "media", "inference"]

  /** `validUseCases.includes(useCase)`: strict equality, so only a string can match. */
  predicate KnownUseCase(v: Option<Json>) {
    v.Some? && v.value.JStr? && v.value.s in ValidUseCases
  }

  /** The response: its status and the text of its `error` or `message` field. */
  datatype Response = Response(status: int, text: string)

  const MissingFields := Response(400, "Missing required fields")
  const InvalidEmail := Response(400, "Invalid email format")
  const InvalidGpuCount := Response(400, "Invalid GPU count. Must be between 1 and 20000")
  const InvalidUseCase := Response(400, "Invalid use case")
  const Submitted := Response(200, "Request submitted successfully")
  const ServerError := Response(500, "Internal server error")

  /** `name`, `email` and `useCase` are all present and truthy. */
  predicate HasRequired(b: Json) {
    Truthy(Field(b, "name")) && Truthy(Field(b, "email")) && Truthy(Field(b, "useCase"))
  }

  predicate EmailOk(b: Json) {
    ValidEmail(StringOf(Field(b, "email")))
  }

  predicate CountOk(b: Json) {
    GpuCountOk(ParseInt(StringOf(Field(b, "gpuCount"))))
  }

  /**
   * POST: `body` is None when the request body is not JSON. Reading a field
   * of a `null` body throws, which also ends in a 500. Otherwise the answer
   * is the first failed check, in the order required fields, e-mail, GPU
   * count, use case, or success when none fails.
   */
  method Post(body: Option<Json>) returns (r: Response)
    ensures body.None? || body.value.JNull? ==> r == ServerError
    ensures body.Some? && !body.value.JNull? ==>
              var b := body.value;
              && (r == MissingFields <==> !HasRequired(b))
              && (r == InvalidEmail <==> HasRequired(b) && !EmailOk(b))
              && (r == InvalidGpuCount <==> HasRequired(b) && EmailOk(b) && !CountOk(b))
              && (r == InvalidUseCase <==> HasRequired(b) && EmailOk(b) && CountOk(b) && !KnownUseCase(Field(b, "useCase")))
              && (r == Submitted <==> HasRequired(b) && EmailOk(b) && CountOk(b) && KnownUseCase(Field(b, "useCase")))
  {
    if body.None? || body.value.JNull? {
      return ServerError;
    }
    var b := body.value;
    if !Truthy(Field(b, "name")) || !Truthy(Field(b, "email")) || !Truthy(Field(b, "useCase")) {
      return MissingFields;
    }
    if !ValidEmail(StringOf(Field(b, "email"))) {
      return InvalidEmail;
    }
    var gpuCount := ParseInt(StringOf(Field(b, "gpuCount")));
    if gpuCount.NaN? || gpuCount.value < 1.0 || gpuCount.value > 20000.0 {
      return InvalidGpuCount;
    }
    if Truthy(Field(b, "useCase")) && Field(b, "useCase").value !in [JStr("baremetal"), JStr("media"), JStr("inference")] {
      return InvalidUseCase;
    }
    return Submitted;
  }

  /**
   * A count written as digits, in a JSON string or number, is read whole:
   * "20000" passes and "20001" does not.
   */
  lemma DigitCount(ds: string)
    requires ds != [] && AllDigits(ds)
    ensures GpuCountOk(ParseInt(ds)) <==> 1 <= DigitsValue(ds) <= 20000
  {
    ParseIntOfDigits(ds);
  }
}
