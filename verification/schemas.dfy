/**
 The reusable field validators of `lib/schemas.ts` and `validateInput`.
 A schema maps an input to either the parsed value or the list of issue messages it
 raised, in the order the checks run; translated messages are modelled by their keys.
 */
module Schemas {
  import opened Wrappers
  import Text

  datatype Parse<T> = Parsed(data: T) | Rejected(issues: seq<string>)

  /** Collects issues: no issue means the input parses to itself. */
  function Check<T>(value: T, issues: seq<string>): (r: Parse<T>)
    ensures r.Parsed? <==> |issues| == 0
    ensures r.Parsed? ==> r.data == value
    ensures r.Rejected? ==> r.issues == issues
  {
    if |issues| == 0 then Parsed(value) else Rejected(issues)
  }

  // ---------------------------------------------------------------- email

  /**
   `getEmailSchema`: a minimum length of one, then the email format check. The format
   check is zod's, passed in as `isEmail`.
   */
  function EmailSchema(s: string, isEmail: string -> bool): (r: Parse<string>)
    ensures r.Parsed? <==> s != "" && isEmail(s)
    ensures s == "" ==> r.Rejected? && |r.issues| > 0 && r.issues[0] == "email_required"
    ensures s != "" && !isEmail(s) ==> r == Rejected(["invalid_email"])
  {
    Check(s, (if |s| < 1 then ["email_required"] else []) + (if !isEmail(s) then ["invalid_email"] else []))
  }

  // ---------------------------------------------------------------- text

  /**
   `getTextSchema(t, min = 1, max = 255)`: both length bounds are checked, on the
   JavaScript length in UTF-16 code units.
   */
  function TextSchema(s: string, min: nat := 1, max: nat := 255): (r: Parse<string>)
    ensures r.Parsed? <==> min <= Text.Utf16Length(s) <= max
    ensures Text.Utf16Length(s) < min ==> r.Rejected? && |r.issues| > 0 && r.issues[0] == "min_length"
    ensures min <= Text.Utf16Length(s) && Text.Utf16Length(s) > max ==> r == Rejected(["max_length"])
  {
    var n := Text.Utf16Length(s);
    Check(s, (if n < min then ["min_length"] else []) + (if n > max then ["max_length"] else []))
  }

  lemma TextSchemaDefaults(s: string)
    ensures TextSchema(s).Parsed? <==> 1 <= Text.Utf16Length(s) <= 255
    ensures TextSchema("").Rejected?
  {
  }

  /**
   On characters outside the Basic Multilingual Plane, each counting two code units,
   the default text schema accepts one to 127 of them.
   */
  lemma TextSchemaAstral(s: string)
    requires forall i :: 0 <= i < |s| ==> s[i] as int >= 0x1_0000
    ensures TextSchema(s).Parsed? <==> 1 <= |s| <= 127
  {
    Text.Utf16LengthAstral(s);
  }

  // ---------------------------------------------------------------- integer

  predicate IsIntegral(x: real)
  {
    x.Floor as real == x
  }

  /** `getIntegerSchema`: a number that is integral. */
  function IntegerSchema(x: real): (r: Parse<real>)
    ensures r.Parsed? <==> exists n: int {:trigger n as real} :: n as real == x
    ensures r.Rejected? ==> r.issues == ["integer_only"]
  {
    if IsIntegral(x) then Parsed(x)
    else
      Rejected(["integer_only"])
  }

  // ---------------------------------------------------------------- numeric string

  predicate IsDigit(c: char)
  {
    '0' <= c <= '9'
  }

  /** `\d+`: one or more ASCII digits. */
  predicate Digits(t: string)
  {
    |t| >= 1 && forall i :: 0 <= i < |t| ==> IsDigit(t[i])
  }

  /** The language of `/^\d+(\.\d+)?$/`, stated directly. */
  ghost predicate NumericPattern(s: string)
  {
    Digits(s) || exists k :: 0 < k < |s| && s[k] == '.' && Digits(s[..k]) && Digits(s[k + 1..])
  }

  /** Length of the run of digits that starts at offset `i`. */
  function DigitRun(s: string, i: nat): (n: nat)
    requires i <= |s|
    ensures i + n <= |s|
    ensures forall j :: i <= j < i + n ==> IsDigit(s[j])
    ensures i + n == |s| || !IsDigit(s[i + n])
    decreases |s| - i
  {
    if i == |s| || !IsDigit(s[i]) then 0 else 1 + DigitRun(s, i + 1)
  }

  /** The matcher: a digit run, then either the end or a dot and a second run to the end. */
  predicate MatchesNumeric(s: string)
  {
    var a := DigitRun(s, 0);
    a > 0 && (a == |s| || (s[a] == '.' && var b := DigitRun(s, a + 1); b > 0 && a + 1 + b == |s|))
  }

  /** The matcher accepts exactly the strings of the pattern. */
  lemma MatchesNumericIff(s: string)
    ensures MatchesNumeric(s) <==> NumericPattern(s)
  {
  }

  /** `getNumericStringSchema`. */
  function NumericStringSchema(s: string): (r: Parse<string>)
    ensures r.Parsed? <==> NumericPattern(s)
    ensures r.Rejected? ==> r.issues == ["number_only"]
  {
    MatchesNumericIff(s);
    if MatchesNumeric(s) then Parsed(s) else Rejected(["number_only"])
  }

  /** The strings the pattern is usually misread to accept are refused. */
  lemma NumericStringRejections()
    ensures NumericStringSchema("").Rejected?
    ensures NumericStringSchema(".5").Rejected?
    ensures NumericStringSchema("5.").Rejected?
    ensures NumericStringSchema("-1").Rejected?
    ensures NumericStringSchema("1e3").Rejected?
    ensures NumericStringSchema("12").Parsed?
    ensures NumericStringSchema("3.14").Parsed?
  {
    assert MatchesNumeric("12") && MatchesNumeric("3.14");
    assert !MatchesNumeric("") && !MatchesNumeric(".5") && !MatchesNumeric("5.");
    assert !MatchesNumeric("-1") && !MatchesNumeric("1e3");
  }

  // ---------------------------------------------------------------- validateInput

  /** The `{ success, data?, error? }` object `validateInput` returns. */
  datatype Validation<T> = Validation(success: bool, data: Option<T>, error: Option<string>)

  /** The message of the first issue, when there is one and it is not empty. */
  function FirstMessage(issues: seq<string>): (m: string)
    ensures |issues| > 0 && issues[0] != "" ==> m == issues[0]
    ensures (|issues| == 0 || issues[0] == "") ==> m == "Validation error"
  {
    if |issues| > 0 && issues[0] != "" then issues[0] else "Validation error"
  }

  /** `validateInput(schema, value)`, with `schema.safeParse` modelled as the function `schema`. */
  function ValidateInput<V, T>(schema: V -> Parse<T>, value: V): (r: Validation<T>)
    ensures r.success <==> schema(value).Parsed?
    ensures r.success ==> r.data == Some(schema(value).data) && r.error == None
    ensures !r.success ==> r.data == None && r.error == Some(FirstMessage(schema(value).issues))
  {
    match schema(value)
    case Parsed(d) => Validation(true, Some(d), None)
    case Rejected(issues) => Validation(false, None, Some(FirstMessage(issues)))
  }

  /** Validating the empty string as text reports the minimum-length message. */
  lemma ValidateEmptyText()
    ensures ValidateInput((s: string) => TextSchema(s), "") == Validation(false, None, Some("min_length"))
  {
  }
}
