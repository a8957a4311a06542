/**
  Reactive-form validation as plain predicates over field values: the
  behaviour of the framework's built-in validators as the settings page and
  the category modal configure them, the backup-time pattern, and the
  settings page's `getErrorMessage`
  (src/app/features/settings/components/settings-page/settings-page.component.ts).
 */
module FormRules {
  import opened Common
  import opened Text
  import opened JsNumber

  /**
    The value a control holds: `null`, a string, a number or a boolean.
    Numbers are exact reals (an `<input type="number">` may hold 12.5).
   */
  datatype FieldValue = Null | Str(s: string) | Num(x: real) | Flag(b: bool)

  /**
    The validators the source uses. `TimePattern` is the one pattern in the
    source, `^([0-1]?[0-9]|2[0-3]):[0-5][0-9]$`.
   */
  datatype Rule = Required | Email | MinLength(n: nat) | MaxLength(n: nat) | Min(bound: int) | Max(bound: int) | TimePattern

  /**
    A control's `errors` object. Each validator owns one key; `other` stands
    for any key no validator of this model produces.
   */
  datatype ControlErrors = ControlErrors(
    required: bool,
    email: bool,
    minlength: Option<nat>,
    maxlength: Option<nat>,
    min: Option<int>,
    max: Option<int>,
    pattern: bool,
    other: bool)

  /** The errors of a valid control (the source's `errors === null`). */
  const NoErrors := ControlErrors(false, false, None, None, None, None, false, false)

  /** The framework's notion of an empty input: null or the empty string. */
  predicate IsEmptyInput(v: FieldValue)
  {
    v == Null || v == Str("")
  }

  /**
    What the `min` and `max` validators compare: `parseFloat(value)`. A
    number reads as itself; a boolean reads as the text `true` or `false`,
    which holds no number (`BooleanReadsNaN`).
   */
  function NumericValue(v: FieldValue): Parsed
  {
    match v
    case Null => NaN
    case Str(s) => ParseFloat(s)
    case Num(x) => Finite(x)
    case Flag(_) => NaN
  }

  /** Reading a boolean as `NaN` is what `parseFloat` does with its text. */
  lemma BooleanReadsNaN(b: bool)
    ensures NumericValue(Flag(b)) == ParseFloat(if b then "true" else "false")
  {
    ParseFloatNaN(if b then "true" else "false");
  }

  /** Whether a parsed value lies below `b`; `NaN` is below nothing. */
  predicate BelowBound(p: Parsed, b: int)
  {
    (p.Finite? && p.value < b as real) || p == Infinite(false)
  }

  /** Whether a parsed value lies above `b`; `NaN` is above nothing. */
  predicate AboveBound(p: Parsed, b: int)
  {
    (p.Finite? && p.value > b as real) || p == Infinite(true)
  }

  // ---------------------------------------------------------------------------
  // The backup-time pattern

  /** `[0-1]?[0-9]|2[0-3]`, matched against the whole of `h`. */
  predicate HourPattern(h: string)
  {
    || (|h| == 1 && IsDigit(h[0]))
    || (|h| == 2 && '0' <= h[0] <= '1' && IsDigit(h[1]))
    || (|h| == 2 && h[0] == '2' && '0' <= h[1] <= '3')
  }

  /** `[0-5][0-9]`, matched against the whole of `m`. */
  predicate MinutePattern(m: string)
  {
    |m| == 2 && '0' <= m[0] <= '5' && IsDigit(m[1])
  }

  /** The anchored pattern: hour text, ':', then exactly two minute digits. */
  predicate MatchesTimePattern(s: string)
  {
    |s| >= 3 && s[|s| - 3] == ':' && HourPattern(s[..|s| - 3]) && MinutePattern(s[|s| - 2..])
  }

  /** An hour written with one or two digits and worth at most 23. */
  ghost predicate HourText(h: string)
  {
    1 <= |h| <= 2 && AllDigits(h) && DigitsValue(h) <= 23
  }

  /** A minute written with exactly two digits and worth at most 59. */
  ghost predicate MinuteText(m: string)
  {
    |m| == 2 && AllDigits(m) && DigitsValue(m) <= 59
  }

  /** A clock time `H:MM` or `HH:MM` read by value: hour 0-23, minutes 00-59. */
  ghost predicate ClockTime(s: string)
  {
    exists k :: 0 <= k < |s| && s[k] == ':' && HourText(s[..k]) && MinuteText(s[k + 1..])
  }

  lemma HourPatternMeansHour(h: string)
    ensures HourPattern(h) <==> HourText(h)
  {
    if |h| == 2 && AllDigits(h) {
      DigitsValueTwo(h);
    }
    if |h| == 1 && AllDigits(h) {
      DigitsValueOne(h);
    }
  }

  lemma MinutePatternMeansMinute(m: string)
    ensures MinutePattern(m) <==> MinuteText(m)
  {
    if |m| == 2 && AllDigits(m) {
      DigitsValueTwo(m);
    }
  }

  /** The regular expression accepts exactly the clock times. */
  lemma TimePatternMeansClockTime(s: string)
    ensures MatchesTimePattern(s) <==> ClockTime(s)
  {
    if MatchesTimePattern(s) {
      var k := |s| - 3;
      HourPatternMeansHour(s[..k]);
      MinutePatternMeansMinute(s[k + 1..]);
      assert s[k + 1..] == s[|s| - 2..];
      assert 0 <= k < |s| && s[k] == ':' && HourText(s[..k]) && MinuteText(s[k + 1..]);
    }
    if ClockTime(s) {
      var k :| 0 <= k < |s| && s[k] == ':' && HourText(s[..k]) && MinuteText(s[k + 1..]);
      assert k == |s| - 3;
      HourPatternMeansHour(s[..k]);
      MinutePatternMeansMinute(s[k + 1..]);
      assert s[k + 1..] == s[|s| - 2..];
    }
  }

  /** `HH:MM` with both parts zero-padded to two digits. */
  function FormatClock(hour: nat, minute: nat): (s: string)
    requires hour <= 23 && minute <= 59
  {
    [DigitChar(hour / 10), DigitChar(hour % 10), ':', DigitChar(minute / 10), DigitChar(minute % 10)]
  }

  /** Every zero-padded time of day is accepted, and reads back as itself. */
  lemma FormattedClockAccepted(hour: nat, minute: nat)
    requires hour <= 23 && minute <= 59
    ensures MatchesTimePattern(FormatClock(hour, minute))
    ensures DigitsValue(FormatClock(hour, minute)[..2]) == hour
    ensures DigitsValue(FormatClock(hour, minute)[3..]) == minute
  {
    var s := FormatClock(hour, minute);
    DigitsValueTwo(s[..2]);
    DigitsValueTwo(s[3..]);
    assert s[..|s| - 3] == s[..2];
    assert s[|s| - 2..] == s[3..];
  }

  // ---------------------------------------------------------------------------
  // Validators

  /**
    The error one validator adds to `e` for value `v`. `emailShaped` is the
    verdict of the framework's e-mail regular expression on the value, which
    this model takes as given.
   */
  function Apply(rule: Rule, v: FieldValue, emailShaped: bool, e: ControlErrors): (r: ControlErrors)
  {
    match rule
    case Required => if IsEmptyInput(v) then e.(required := true) else e
    case Email => if !IsEmptyInput(v) && !emailShaped then e.(email := true) else e
    case MinLength(n) =>
      if v.Str? && v.s != "" && |v.s| < n then e.(minlength := Some(n)) else e
    case MaxLength(n) =>
      if v.Str? && |v.s| > n then e.(maxlength := Some(n)) else e
    case Min(b) => if !IsEmptyInput(v) && BelowBound(NumericValue(v), b) then e.(min := Some(b)) else e
    case Max(b) => if !IsEmptyInput(v) && AboveBound(NumericValue(v), b) then e.(max := Some(b)) else e
    case TimePattern =>
      // `String(value)` of a number or a boolean has no ':', so only a string can match.
      if !IsEmptyInput(v) && !(v.Str? && MatchesTimePattern(v.s)) then e.(pattern := true) else e
  }

  /** The merged errors of all validators, applied in order. */
  function Validate(v: FieldValue, rules: seq<Rule>, emailShaped: bool): ControlErrors
  {
    if |rules| == 0 then NoErrors
    else Apply(rules[|rules| - 1], v, emailShaped, Validate(v, rules[..|rules| - 1], emailShaped))
  }

  predicate Accepts(rules: seq<Rule>, v: FieldValue, emailShaped: bool)
  {
    Validate(v, rules, emailShaped) == NoErrors
  }

  /**
    Whether each validator alone passes `v`: the independent reading of
    "the control is valid when every validator passes".
   */
  predicate Passes(rule: Rule, v: FieldValue, emailShaped: bool)
  {
    match rule
    case Required => !IsEmptyInput(v)
    case Email => IsEmptyInput(v) || emailShaped
    case MinLength(n) => !(v.Str? && v.s != "") || |v.s| >= n
    case MaxLength(n) => !v.Str? || |v.s| <= n
    case Min(b) => IsEmptyInput(v) || !BelowBound(NumericValue(v), b)
    case Max(b) => IsEmptyInput(v) || !AboveBound(NumericValue(v), b)
    case TimePattern => IsEmptyInput(v) || (v.Str? && MatchesTimePattern(v.s))
  }

  /** A rule only ever adds its own key, so errors are never lost. */
  lemma ApplyKeepsErrors(rule: Rule, v: FieldValue, emailShaped: bool, e: ControlErrors)
    requires e != NoErrors
    ensures Apply(rule, v, emailShaped, e) != NoErrors
  {
  }

  /** The two-validator case of `AcceptsIffAllPass`. */
  lemma TwoRules(a: Rule, b: Rule, v: FieldValue, emailShaped: bool)
    ensures Accepts([a, b], v, emailShaped) <==> Passes(a, v, emailShaped) && Passes(b, v, emailShaped)
  {
    AcceptsIffAllPass([a, b], v, emailShaped);
    assert [a, b][0] == a && [a, b][1] == b;
  }

  /** The three-validator case of `AcceptsIffAllPass`. */
  lemma ThreeRules(a: Rule, b: Rule, c: Rule, v: FieldValue, emailShaped: bool)
    ensures Accepts([a, b, c], v, emailShaped) <==>
      Passes(a, v, emailShaped) && Passes(b, v, emailShaped) && Passes(c, v, emailShaped)
  {
    AcceptsIffAllPass([a, b, c], v, emailShaped);
    assert [a, b, c][0] == a && [a, b, c][1] == b && [a, b, c][2] == c;
  }

  /** A required value with a lower and an upper bound, as the bounds read it. */
  lemma RangeAccepts(v: FieldValue, lo: int, hi: int)
    ensures Accepts([Required, Min(lo), Max(hi)], v, false) <==>
      !IsEmptyInput(v) && !BelowBound(NumericValue(v), lo) && !AboveBound(NumericValue(v), hi)
  {
    ThreeRules(Required, Min(lo), Max(hi), v, false);
  }

  /** A required value with a lower bound, as the bound reads it. */
  lemma FloorAccepts(v: FieldValue, lo: int)
    ensures Accepts([Required, Min(lo)], v, false) <==> !IsEmptyInput(v) && !BelowBound(NumericValue(v), lo)
  {
    TwoRules(Required, Min(lo), v, false);
  }

  /** A control is accepted iff every one of its validators passes. */
  lemma {:induction false} AcceptsIffAllPass(rules: seq<Rule>, v: FieldValue, emailShaped: bool)
    ensures Accepts(rules, v, emailShaped) <==> forall i :: 0 <= i < |rules| ==> Passes(rules[i], v, emailShaped)
  {
    if |rules| > 0 {
      var init := rules[..|rules| - 1];
      AcceptsIffAllPass(init, v, emailShaped);
      var e := Validate(v, init, emailShaped);
      if e != NoErrors {
        ApplyKeepsErrors(rules[|rules| - 1], v, emailShaped, e);
      }
      assert forall i :: 0 <= i < |init| ==> init[i] == rules[i];
    }
  }

  // ---------------------------------------------------------------------------
  // The settings page's validator configuration (initializeForms)

  const CompanyNameRules: seq<Rule> := [Required, MinLength(3)]
  const RucRules: seq<Rule> := [Required, MinLength(10), MaxLength(13)]
  const AddressRules: seq<Rule> := [Required]
  const PhoneRules: seq<Rule> := [Required, MinLength(7)]
  const EmailRules: seq<Rule> := [Required, Email]
  const ChoiceRules: seq<Rule> := [Required]
  const IvaRules: seq<Rule> := [Required, Min(0), Max(100)]
  const MinStockRules: seq<Rule> := [Required, Min(0)]
  const CreditDaysRules: seq<Rule> := [Required, Min(0)]
  const MaxDiscountRules: seq<Rule> := [Required, Min(0), Max(100)]
  const SessionTimeoutRules: seq<Rule> := [Required, Min(15)]
  const LogRetentionRules: seq<Rule> := [Required, Min(7)]
  const BackupTimeRules: seq<Rule> := [Required, TimePattern]

  /**
    Percentages (`ivaPercentage`, `maxDiscountPercentage`) hold a number in
    [0, 100], fractions included; `null` is refused.
   */
  lemma PercentageBounds(x: real)
    ensures Accepts(IvaRules, Num(x), false) <==> 0.0 <= x <= 100.0
    ensures Accepts(MaxDiscountRules, Num(x), false) <==> 0.0 <= x <= 100.0
    ensures !Accepts(IvaRules, Null, false) && !Accepts(MaxDiscountRules, Null, false)
  {
    ThreeRules(Required, Min(0), Max(100), Num(x), false);
    ThreeRules(Required, Min(0), Max(100), Null, false);
  }

  /**
    Text in a percentage field is accepted iff it is non-empty and
    `parseFloat` reads from it a number in [0, 100] or no number at all (the
    validators let `NaN` through).
   */
  lemma PercentageTextBounds(s: string)
    ensures Accepts(IvaRules, Str(s), false) <==>
      s != "" && (ParseFloat(s) == NaN || (ParseFloat(s).Finite? && 0.0 <= ParseFloat(s).value <= 100.0))
    ensures Accepts(MaxDiscountRules, Str(s), false) <==> Accepts(IvaRules, Str(s), false)
  {
    RangeAccepts(Str(s), 0, 100);
    assert NumericValue(Str(s)) == ParseFloat(s);
  }

  /** A boolean in a percentage field reads as `NaN`, so the bounds let it through. */
  lemma PercentageFlagAccepted(b: bool)
    ensures Accepts(IvaRules, Flag(b), false) && Accepts(MaxDiscountRules, Flag(b), false)
  {
    RangeAccepts(Flag(b), 0, 100);
  }

  /** Session timeout is at least 15 minutes, log retention at least 7 days. */
  lemma TechnicalBounds(x: real)
    ensures Accepts(SessionTimeoutRules, Num(x), false) <==> x >= 15.0
    ensures Accepts(LogRetentionRules, Num(x), false) <==> x >= 7.0
  {
    TwoRules(Required, Min(15), Num(x), false);
    TwoRules(Required, Min(7), Num(x), false);
  }

  /**
    Text in those fields is accepted iff it is non-empty and `parseFloat`
    reads from it neither a number below the bound nor `-Infinity`.
   */
  lemma TechnicalTextBounds(s: string)
    ensures Accepts(SessionTimeoutRules, Str(s), false) <==>
      s != "" && ParseFloat(s) != Infinite(false) && !(ParseFloat(s).Finite? && ParseFloat(s).value < 15.0)
    ensures Accepts(LogRetentionRules, Str(s), false) <==>
      s != "" && ParseFloat(s) != Infinite(false) && !(ParseFloat(s).Finite? && ParseFloat(s).value < 7.0)
  {
    FloorAccepts(Str(s), 15);
    FloorAccepts(Str(s), 7);
    assert NumericValue(Str(s)) == ParseFloat(s);
  }

  /** The text `5` reads as 5, below the 15-minute minimum. */
  lemma FiveTooShort()
    ensures !Accepts(SessionTimeoutRules, Str("5"), false)
  {
    ParseFloatDigits("5");
    DigitsValueOne("5");
    TechnicalTextBounds("5");
  }

  /**
    `parseFloat` stops at the first character that cannot continue the
    number, so digits followed by other text (`20 minutos`) are judged by
    the digits alone.
   */
  lemma DigitsThenTextJudgedByDigits(d: string, t: string)
    requires |d| > 0 && AllDigits(d)
    requires t == "" || !(IsDigit(t[0]) || t[0] == '.' || t[0] == 'e' || t[0] == 'E')
    ensures Accepts(SessionTimeoutRules, Str(d + t), false) <==> DigitsValue(d) >= 15
  {
    ParseFloatIgnoresTail(d, t);
    TechnicalTextBounds(d + t);
  }

  /** Text holding no number reads as `NaN`, which the `min` validator lets through. */
  lemma NoNumberPasses()
    ensures Accepts(SessionTimeoutRules, Str("abc"), false)
  {
    ParseFloatNaN("abc");
    TechnicalTextBounds("abc");
  }

  /** The RUC has 10 to 13 characters; the company name at least 3. */
  lemma CompanyTextBounds(s: string)
    ensures Accepts(RucRules, Str(s), false) <==> 10 <= |s| <= 13
    ensures Accepts(CompanyNameRules, Str(s), false) <==> |s| >= 3
    ensures Accepts(PhoneRules, Str(s), false) <==> |s| >= 7
  {
    AcceptsIffAllPass(RucRules, Str(s), false);
    AcceptsIffAllPass(CompanyNameRules, Str(s), false);
    AcceptsIffAllPass(PhoneRules, Str(s), false);
    assert Passes(RucRules[0], Str(s), false) <==> s != "";
    assert Passes(RucRules[1], Str(s), false) <==> s == "" || |s| >= 10;
    assert Passes(RucRules[2], Str(s), false) <==> |s| <= 13;
    assert Passes(CompanyNameRules[1], Str(s), false) <==> s == "" || |s| >= 3;
    assert Passes(PhoneRules[1], Str(s), false) <==> s == "" || |s| >= 7;
  }

  /** The backup time is required and must be a clock time `H:MM` or `HH:MM`. */
  lemma BackupTimeBounds(s: string)
    ensures Accepts(BackupTimeRules, Str(s), false) <==> ClockTime(s)
  {
    AcceptsIffAllPass(BackupTimeRules, Str(s), false);
    TimePatternMeansClockTime(s);
    if s == "" {
      assert !ClockTime(s);
    }
  }

  // ---------------------------------------------------------------------------
  // getErrorMessage

  /** A control as `getErrorMessage` sees it. */
  datatype Control = Control(errors: ControlErrors, touched: bool)

  /** The error keys `getErrorMessage` knows, in the order it asks for them. */
  datatype ErrorKey = RequiredKey | EmailKey | MinLengthKey | MaxLengthKey | MinKey | MaxKey | PatternKey

  const Precedence: seq<ErrorKey> := [RequiredKey, EmailKey, MinLengthKey, MaxLengthKey, MinKey, MaxKey, PatternKey]

  predicate HasKey(e: ControlErrors, k: ErrorKey)
  {
    match k
    case RequiredKey => e.required
    case EmailKey => e.email
    case MinLengthKey => e.minlength.Some?
    case MaxLengthKey => e.maxlength.Some?
    case MinKey => e.min.Some?
    case MaxKey => e.max.Some?
    case PatternKey => e.pattern
  }

  /** The message for one key, with the bound the error object carries. */
  function KeyMessage(e: ControlErrors, k: ErrorKey): string
    requires HasKey(e, k)
  {
    match k
    case RequiredKey => "Este campo es requerido"
    case EmailKey => "Email inválido"
    case MinLengthKey => "Mínimo " + IntToString(e.minlength.value) + " caracteres"
    case MaxLengthKey => "Máximo " + IntToString(e.maxlength.value) + " caracteres"
    case MinKey => "Valor mínimo: " + IntToString(e.min.value)
    case MaxKey => "Valor máximo: " + IntToString(e.max.value)
    case PatternKey => "Formato inválido"
  }

  const Fallback := "Campo inválido"

  /**
    `getErrorMessage(form, field)`: nothing for a missing, valid or untouched
    control; otherwise the message of the first error in `Precedence`, or the
    fallback when the control only has errors outside it.
   */
  function ErrorMessage(form: map<string, Control>, field: string): (r: string)
    ensures r == "" <==> field !in form || form[field].errors == NoErrors || !form[field].touched
  {
    if field !in form || form[field].errors == NoErrors || !form[field].touched then ""
    else
      var e := form[field].errors;
      if e.required then "Este campo es requerido"
      else if e.email then "Email inválido"
      else if e.minlength.Some? then "Mínimo " + IntToString(e.minlength.value) + " caracteres"
      else if e.maxlength.Some? then "Máximo " + IntToString(e.maxlength.value) + " caracteres"
      else if e.min.Some? then "Valor mínimo: " + IntToString(e.min.value)
      else if e.max.Some? then "Valor máximo: " + IntToString(e.max.value)
      else if e.pattern then "Formato inválido"
      else Fallback
  }

  /**
    A shown error reports the first key of `Precedence` the control has, and
    the fallback when it has none of them.
   */
  lemma ErrorMessagePrecedence(form: map<string, Control>, field: string, i: nat)
    requires field in form && form[field].errors != NoErrors && form[field].touched
    requires i <= |Precedence|
    requires forall j :: 0 <= j < i ==> !HasKey(form[field].errors, Precedence[j])
    requires i < |Precedence| ==> HasKey(form[field].errors, Precedence[i])
    ensures i < |Precedence| ==> ErrorMessage(form, field) == KeyMessage(form[field].errors, Precedence[i])
    ensures i == |Precedence| ==> ErrorMessage(form, field) == Fallback
  {
    var e := form[field].errors;
    if i > 0 { assert !HasKey(e, Precedence[0]); }
    if i > 1 { assert !HasKey(e, Precedence[1]); }
    if i > 2 { assert !HasKey(e, Precedence[2]); }
    if i > 3 { assert !HasKey(e, Precedence[3]); }
    if i > 4 { assert !HasKey(e, Precedence[4]); }
    if i > 5 { assert !HasKey(e, Precedence[5]); }
    if i > 6 { assert !HasKey(e, Precedence[6]); }
  }

  /** A touched control with a too-short name reports the configured minimum. */
  lemma ShortNameMessage(name: string)
    requires 0 < |name| < 3
    ensures ErrorMessage(map["name" := Control(Validate(Str(name), CompanyNameRules, false), true)], "name")
      == "Mínimo 3 caracteres"
  {
    var e := Validate(Str(name), CompanyNameRules, false);
    assert CompanyNameRules[..1] == [Required] && [Required][..0] == [];
    assert Validate(Str(name), [], false) == NoErrors;
    assert Validate(Str(name), [Required], false) == NoErrors;
    assert e == NoErrors.(minlength := Some(3));
  }

  /** An out-of-range percentage reports the bound it violates. */
  lemma PercentageMessages(x: real)
    requires x < 0.0 || x > 100.0
    ensures ErrorMessage(map["ivaPercentage" := Control(Validate(Num(x), IvaRules, false), true)], "ivaPercentage")
      == if x < 0.0 then "Valor mínimo: 0" else "Valor máximo: 100"
  {
    var e := Validate(Num(x), IvaRules, false);
    assert IvaRules[..2] == [Required, Min(0)] && IvaRules[..2][..1] == [Required] && [Required][..0] == [];
    assert Validate(Num(x), [Required], false) == NoErrors;
    assert Validate(Num(x), [Required, Min(0)], false) == if x < 0.0 then NoErrors.(min := Some(0)) else NoErrors;
    if x < 0.0 {
      assert e == NoErrors.(min := Some(0));
    } else {
      assert e == NoErrors.(max := Some(100));
    }
  }
}
