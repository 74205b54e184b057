/**
 * The client-side registration form (frontend/src/components/Register.jsx):
 * `validateForm`, a fixed sequence of checks whose first failure decides the
 * message, and the argument list `handleSubmit` passes to `register`.
 */
module RegisterForm {
  import opened Wrappers
  import opened Strings
  import opened JsNumber

  /** The form's state: every input is a string, empty until typed into. */
  datatype FormData = FormData(
    username: string,
    email: string,
    password: string,
    confirmPassword: string,
    mobile: string,
    age: string,
    gender: string)

  const PasswordMismatch := "Passwords do not match"
  const PasswordTooShort := "Password must be at least 6 characters long"
  const AgeInvalid := "Age must be a number and at least 18"
  const MinPasswordLength := 6
  const MinAge := 18

  /** `String.prototype.length`: UTF-16 code units, so a code point above U+FFFF counts twice. */
  function Utf16Length(s: string): (n: nat)
    ensures |s| <= n <= 2 * |s|
  {
    if s == [] then 0 else (if s[0] as int > 0xFFFF then 2 else 1) + Utf16Length(s[1..])
  }

  /** `formData.age && (isNaN(formData.age) || formData.age < 18)`. */
  predicate AgeRejected(age: string)
  {
    age != "" && (ToNumber(age) == NaN || LessThan(ToNumber(age), MinAge as real))
  }

  /** `validateForm`: `Fail(message)` carries the message it shows; `Pass` is `true`. */
  function ValidateForm(f: FormData): (r: Outcome<string>)
    ensures r == Fail(PasswordMismatch) <==> f.password != f.confirmPassword
    ensures r == Fail(PasswordTooShort) <==> f.password == f.confirmPassword && Utf16Length(f.password) < MinPasswordLength
    ensures r == Fail(AgeInvalid) <==> f.password == f.confirmPassword && Utf16Length(f.password) >= MinPasswordLength && AgeRejected(f.age)
    ensures r == Pass <==> f.password == f.confirmPassword && Utf16Length(f.password) >= MinPasswordLength && !AgeRejected(f.age)
  {
    if f.password != f.confirmPassword then Fail(PasswordMismatch)
    else if Utf16Length(f.password) < MinPasswordLength then Fail(PasswordTooShort)
    else if AgeRejected(f.age) then Fail(AgeInvalid)
    else Pass
  }

  /** The `age` argument: `null` for an empty field, otherwise whatever `parseInt` yields. */
  datatype AgeArg = NullAge | NaNAge | IntAge(years: int)

  /** The arguments of `register(...)`: the confirmation is not among them. */
  datatype RegisterArgs = RegisterArgs(
    username: string,
    email: string,
    password: string,
    mobile: string,
    age: AgeArg,
    gender: Option<string>)

  function AgeArgument(age: string): AgeArg
  {
    if age == "" then NullAge
    else match ParseInt(age)
      case None => NaNAge
      case Some(n) => IntAge(n)
  }

  /** The normalisation in `handleSubmit`. */
  function SubmitArgs(f: FormData): (a: RegisterArgs)
    ensures a.username == f.username && a.email == f.email && a.password == f.password && a.mobile == f.mobile
    ensures a.gender == (if f.gender == "" then None else Some(f.gender))
    ensures a.age == NullAge <==> f.age == ""
  {
    RegisterArgs(f.username, f.email, f.password, f.mobile, AgeArgument(f.age), if f.gender == "" then None else Some(f.gender))
  }

  /** `handleSubmit`: the validation message, or the arguments sent to the server. */
  function HandleSubmit(f: FormData): (r: Result<RegisterArgs, string>)
    ensures r.Err? <==> ValidateForm(f).Fail?
    ensures r.Err? ==> r.error == ValidateForm(f).error
    ensures r.Ok? ==> r.value == SubmitArgs(f)
  {
    match ValidateForm(f)
    case Fail(message) => Err(message)
    case Pass => Ok(SubmitArgs(f))
  }

  /** An empty age field never blocks submission and is sent as `null`. */
  lemma EmptyAgeAccepted(f: FormData)
    requires f.age == "" && f.password == f.confirmPassword && Utf16Length(f.password) >= MinPasswordLength
    ensures HandleSubmit(f).Ok? && HandleSubmit(f).value.age == NullAge
  {
  }

  /** A digit run stops at the first character that is not a digit. */
  lemma {:induction false} DigitPrefixOf(a: string, b: string, radix: nat)
    requires AllRadixDigits(a, radix)
    requires b == [] || !IsRadixDigit(b[0], radix)
    ensures DigitPrefix(a + b, radix) == |a|
  {
    if a != [] {
      assert (a + b)[0] == a[0] && (a + b)[1..] == a[1..] + b;
      DigitPrefixOf(a[1..], b, radix);
    }
  }

  /**
   * The longest fractional part (point included) for which comparing the exact
   * value with 18 agrees with comparing the nearest double: with at most 14
   * digits after the point a value below 18 stays at least 1e-14 below it,
   * more than half the spacing of doubles near 18.
   */
  const MaxExactFraction := 15

  /** A decimal literal as the form sees it: an optional sign, digits, and an optional `.` with digits after it. */
  predicate DecimalShape(sign: string, digits: string, fraction: string)
  {
    (sign == "" || sign == "+" || sign == "-") &&
    AllRadixDigits(digits, 10) &&
    (fraction == [] || (fraction[0] == '.' && AllRadixDigits(fraction[1..], 10)))
  }

  /** The exact value of such a literal, before the sign is applied. */
  function DecimalMagnitude(digits: string, fraction: string): (v: real)
    requires AllRadixDigits(digits, 10)
    requires fraction == [] || (fraction[0] == '.' && AllRadixDigits(fraction[1..], 10))
    ensures DigitsValue(digits, 10) as real <= v < DigitsValue(digits, 10) as real + 1.0
  {
    DigitsValue(digits, 10) as real + (if fraction == [] then 0.0 else FractionValue(fraction[1..]))
  }

  /** The unsigned part of such a literal has its exact decimal value. */
  lemma UnsignedDecimal(digits: string, fraction: string)
    requires AllRadixDigits(digits, 10) && digits != []
    requires fraction == [] || (fraction[0] == '.' && AllRadixDigits(fraction[1..], 10))
    ensures ParseUnsignedDecimal(digits + fraction) == Some(DecimalMagnitude(digits, fraction))
  {
    var body := digits + fraction;
    DigitPrefixOf(digits, fraction, 10);
    assert body[..|digits|] == digits && body[|digits|..] == fraction;
    if fraction != [] {
      var afterPoint := fraction[1..];
      DigitPrefixOf(afterPoint, [], 10);
      assert afterPoint + [] == afterPoint;
      assert afterPoint[..|afterPoint|] == afterPoint && afterPoint[|afterPoint|..] == [];
    }
  }

  /** `Number` reads a trimmed decimal literal with at least one digit. */
  lemma NumberOfDecimal(sign: string, digits: string, fraction: string)
    requires DecimalShape(sign, digits, fraction) && digits != []
    ensures LiteralValue(sign + digits + fraction) == Finite(if sign == "-" then -DecimalMagnitude(digits, fraction) else DecimalMagnitude(digits, fraction))
  {
    var t := sign + digits + fraction;
    var body := digits + fraction;
    assert t == sign + body;
    assert body[0] == digits[0];
    assert |body| >= 2 ==> body[1] == (if |digits| >= 2 then digits[1] else fraction[0]);
    assert RadixPrefix(t).None?;
    assert "Infinity"[0] == 'I';
    assert body != "Infinity";
    assert (if t[0] == '+' || t[0] == '-' then t[1..] else t) == body;
    assert t[0] == '-' <==> sign == "-";
    UnsignedDecimal(digits, fraction);
  }

  /** `parseInt` on unsigned digits followed by something that is neither a digit nor an `x`. */
  lemma ParseIntOfDigits(u: string, digits: string, rest: string)
    requires AllRadixDigits(digits, 10) && digits != [] && u == digits + rest
    requires rest == [] || (!IsRadixDigit(rest[0], 10) && rest[0] != 'x' && rest[0] != 'X')
    ensures u[0] != '+' && u[0] != '-'
    ensures ParseIntFrom(u) == Some(DigitsValue(digits, 10))
  {
    assert u[0] == digits[0];
    assert |u| >= 2 ==> u[1] == (if |digits| >= 2 then digits[1] else rest[0]);
    DigitPrefixOf(digits, rest, 10);
    assert u[..|digits|] == digits;
  }

  /** A leading sign only negates what `parseInt` reads after it. */
  lemma ParseIntOfSigned(sign: string, u: string)
    requires sign == "" || sign == "+" || sign == "-"
    requires u != [] && u[0] != '+' && u[0] != '-'
    ensures ParseIntFrom(sign + u) == (if sign == "-" && ParseIntFrom(u).Some? then Some(-ParseIntFrom(u).value) else ParseIntFrom(u))
  {
    if sign != "" {
      assert (sign + u)[0] == sign[0] && (sign + u)[1..] == u;
    } else {
      assert sign + u == u;
    }
  }

  /** Whitespace and the decimal point end a digit run and are not the `x` of a hex prefix. */
  lemma EndsDigits(c: char)
    requires c == '.' || IsJsSpace(c)
    ensures !IsRadixDigit(c, 10) && c != 'x' && c != 'X'
  {
  }

  /** `parseInt` reads a signed digit run up to a point or whitespace after it. */
  lemma ParseIntOfDecimal(sign: string, digits: string, rest: string)
    requires (sign == "" || sign == "+" || sign == "-") && AllRadixDigits(digits, 10) && digits != []
    requires rest == [] || rest[0] == '.' || IsJsSpace(rest[0])
    ensures ParseIntFrom(sign + (digits + rest)) == Some(if sign == "-" then -(DigitsValue(digits, 10) as int) else DigitsValue(digits, 10))
  {
    if rest != [] {
      EndsDigits(rest[0]);
    }
    ParseIntOfDigits(digits + rest, digits, rest);
    ParseIntOfSigned(sign, digits + rest);
  }

  lemma Regroup(a: string, b: string, c: string, d: string)
    ensures a + b + c + d == a + (b + (c + d))
  {
  }

  /** What `Trim` removes at the end is whitespace that `TrimStart` keeps. */
  lemma TrimStartExtends(s: string) returns (trailing: string)
    ensures TrimStart(s) == Trim(s) + trailing
    ensures trailing == [] || IsJsSpace(trailing[0])
  {
    var s0 := TrimStart(s);
    var t := Trim(s);
    assert t == s0[..|t|];
    trailing := s0[|t|..];
    assert s0 == t + trailing;
  }

  /** Without integer digits the literal is NaN or below one, a sign alone or a bare fraction. */
  lemma NumberWithoutDigits(sign: string, fraction: string)
    requires DecimalShape(sign, [], fraction)
    ensures LiteralValue(sign + fraction) == NaN || LessThan(LiteralValue(sign + fraction), 1.0)
  {
    var t := sign + fraction;
    if t != [] {
      assert RadixPrefix(t).None?;
      var body := if t[0] == '+' || t[0] == '-' then t[1..] else t;
      assert body == fraction;
      assert "Infinity"[0] == 'I';
      if fraction != [] {
        var afterPoint := fraction[1..];
        DigitPrefixOf([], fraction, 10);
        DigitPrefixOf(afterPoint, [], 10);
        assert afterPoint + [] == afterPoint && [] + fraction == fraction;
        assert afterPoint[..|afterPoint|] == afterPoint && afterPoint[|afterPoint|..] == [];
      }
    }
  }

  /** A decimal age that `validateForm` lets through has integer digits, no minus sign, and a whole part of at least 18. */
  lemma AcceptedDecimalAge(age: string, sign: string, digits: string, fraction: string)
    requires !AgeRejected(age)
    requires DecimalShape(sign, digits, fraction) && |fraction| <= MaxExactFraction
    requires age != "" && Trim(age) == sign + digits + fraction
    ensures digits != [] && sign != "-" && DigitsValue(digits, 10) >= MinAge
  {
    var number := ToNumber(age);
    assert number == LiteralValue(sign + digits + fraction);
    assert number != NaN && !LessThan(number, MinAge as real);
    if digits == [] {
      assert sign + digits + fraction == sign + fraction;
      NumberWithoutDigits(sign, fraction);
      assert false;
    }
    NumberOfDecimal(sign, digits, fraction);
  }

  /** `parseInt` of a field holding a decimal literal is the literal's signed whole part. */
  lemma ParseIntOfDecimalField(age: string, sign: string, digits: string, fraction: string)
    requires DecimalShape(sign, digits, fraction) && digits != []
    requires Trim(age) == sign + digits + fraction
    ensures ParseInt(age) == Some(if sign == "-" then -(DigitsValue(digits, 10) as int) else DigitsValue(digits, 10))
  {
    var trailing := TrimStartExtends(age);
    Regroup(sign, digits, fraction, trailing);
    var rest := fraction + trailing;
    assert rest == [] || rest[0] == '.' || IsJsSpace(rest[0]) by {
      if fraction == [] { assert rest == trailing; } else { assert rest[0] == fraction[0]; }
    }
    ParseIntOfDecimal(sign, digits, rest);
  }

  /**
   * An age typed as an optionally signed decimal, with or without a
   * fractional part and with surrounding whitespace, that passes validation
   * is sent as its whole part, and that whole part is at least 18.
   */
  lemma DecimalAgeSubmitted(f: FormData, sign: string, digits: string, fraction: string)
    requires ValidateForm(f) == Pass
    requires DecimalShape(sign, digits, fraction) && |fraction| <= MaxExactFraction
    requires f.age != "" && Trim(f.age) == sign + digits + fraction
    ensures SubmitArgs(f).age == IntAge(DigitsValue(digits, 10))
    ensures DigitsValue(digits, 10) >= MinAge
  {
    AcceptedDecimalAge(f.age, sign, digits, fraction);
    ParseIntOfDecimalField(f.age, sign, digits, fraction);
  }

  // The age check and the age sent disagree: `isNaN` and `<` read the field
  // with `Number`, which accepts an exponent, while `handleSubmit` sends
  // `parseInt`, which stops at the first character that is not a digit.

  /** A value ending a number: nothing, or an exponent part. */
  predicate ExponentOrEnd(t: string)
  {
    t == [] || ParseExponent(t).Some?
  }

  /**
   * HTML's "valid floating-point number": an optional `-`, digits, a point
   * followed by digits, or both, and an optional exponent. A `type="number"`
   * input holds such a string or the empty string.
   */
  predicate NumberInputValue(s: string)
  {
    var u := if s != [] && s[0] == '-' then s[1..] else s;
    var i := DigitPrefix(u, 10);
    var rest := u[i..];
    if rest != [] && rest[0] == '.' then
      var j := DigitPrefix(rest[1..], 10);
      j > 0 && ExponentOrEnd(rest[1 + j..])
    else i > 0 && ExponentOrEnd(rest)
  }

  /** `Number("2e1")` is 20. */
  lemma NumberOfTwoE1()
    ensures ToNumber("2e1") == Finite(20.0)
  {
    var age := "2e1";
    assert !IsJsSpace(age[0]) && !IsJsSpace(age[|age| - 1]);
    assert TrimStart(age) == age;
    assert TrimEnd(age) == age;
    DigitPrefixOf("2", "e1", 10);
    assert "2" + "e1" == age && age[..1] == "2" && age[1..] == "e1";
    assert "2"[..0] == [] && DigitsValue("2", 10) == 2;
    assert ParseExponent("e1") == Some(1) by {
      assert "e1"[1..] == "1" && "1"[..0] == [];
      assert DigitsValue("1", 10) == 1;
    }
    assert Scale(2.0, 1) == 20.0;
    assert ParseUnsignedDecimal(age) == Some(20.0);
    assert RadixPrefix(age).None?;
  }

  /** `parseInt("2e1")` is 2. */
  lemma ParseIntOfTwoE1()
    ensures ParseInt("2e1") == Some(2)
  {
    var age := "2e1";
    assert !IsJsSpace(age[0]);
    assert TrimStart(age) == age;
    DigitPrefixOf("2", "e1", 10);
    assert "2" + "e1" == age && age[..1] == "2";
    assert "2"[..0] == [] && DigitsValue("2", 10) == 2;
  }

  /** `2e1` is a value a number input can hold. */
  lemma TwoE1IsNumberInput()
    ensures NumberInputValue("2e1")
  {
    var age := "2e1";
    DigitPrefixOf("2", "e1", 10);
    assert "2" + "e1" == age && age[1..] == "e1";
    assert ParseExponent("e1").Some? by {
      assert "e1"[1..] == "1";
    }
  }

  /** The age field `2e1` passes the age check and becomes the argument 2. */
  lemma TwoE1AgeField()
    ensures !AgeRejected("2e1") && AgeArgument("2e1") == IntAge(2)
  {
    NumberOfTwoE1();
    ParseIntOfTwoE1();
  }

  /** As written: an age of `2e1`, which the number input accepts, is checked as 20 and sent as 2. */
  lemma ExponentAgeSentAsTwo()
    ensures var f := FormData("asha", "asha@example.com", "secret", "secret", "9876543210", "2e1", "");
      ValidateForm(f) == Pass && SubmitArgs(f).age == IntAge(2)
  {
    var f := FormData("asha", "asha@example.com", "secret", "secret", "9876543210", "2e1", "");
    assert Utf16Length("secret") == 6;
    TwoE1AgeField();
  }

  /** The age actually sent is absent or a whole number of at least 18. */
  predicate SentAgeAdult(age: string)
  {
    age == "" || (ParseInt(age).Some? && ParseInt(age).value >= MinAge)
  }

  /** Corrected `validateForm`: the age check also covers the value `parseInt` sends. */
  function ValidateFormIntended(f: FormData): (r: Outcome<string>)
    ensures r == Pass <==> ValidateForm(f) == Pass && SentAgeAdult(f.age)
    ensures ValidateForm(f).Fail? ==> r == ValidateForm(f)
    ensures ValidateForm(f) == Pass && !SentAgeAdult(f.age) ==> r == Fail(AgeInvalid)
  {
    if ValidateForm(f).Fail? then ValidateForm(f)
    else if !SentAgeAdult(f.age) then Fail(AgeInvalid)
    else Pass
  }

  /** Corrected `handleSubmit`, guarded by the corrected check. */
  function HandleSubmitIntended(f: FormData): (r: Result<RegisterArgs, string>)
    ensures r.Err? <==> ValidateFormIntended(f).Fail?
    ensures r.Err? ==> r.error == ValidateFormIntended(f).error
    ensures r.Ok? ==> r.value == SubmitArgs(f)
  {
    match ValidateFormIntended(f)
    case Fail(message) => Err(message)
    case Pass => Ok(SubmitArgs(f))
  }

  /** With the corrected check, what reaches the server is `null` or an adult age. */
  lemma IntendedSendsAdultAge(f: FormData)
    requires HandleSubmitIntended(f).Ok?
    ensures HandleSubmitIntended(f).value.age == NullAge ||
      (HandleSubmitIntended(f).value.age.IntAge? && HandleSubmitIntended(f).value.age.years >= MinAge)
  {
    assert ValidateFormIntended(f) == Pass;
    assert SentAgeAdult(f.age);
  }

  /** For ages typed as plain decimals the correction changes nothing. */
  lemma IntendedAgreesOnDecimals(f: FormData, sign: string, digits: string, fraction: string)
    requires DecimalShape(sign, digits, fraction) && |fraction| <= MaxExactFraction
    requires f.age != "" && Trim(f.age) == sign + digits + fraction
    ensures ValidateFormIntended(f) == ValidateForm(f)
    ensures HandleSubmitIntended(f) == HandleSubmit(f)
  {
    if ValidateForm(f) == Pass {
      DecimalAgeSubmitted(f, sign, digits, fraction);
      assert ParseInt(f.age) == Some(DigitsValue(digits, 10) as int);
    }
  }
}
