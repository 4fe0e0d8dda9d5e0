/**
 * The field constraints of the user settings form: every field may be omitted,
 * and a field that is present must satisfy its own rule.
 */
module UserDtoRules {
  import opened Wrappers
  import opened Text
  import Seqs

  /** The pomodoro part of the form. */
  datatype PomodoroSettingsDto = PomodoroSettingsDto(workInterval: Option<int>, breakInterval: Option<int>, intervalCount: Option<int>)

  /**
   * The whole form: the account fields and the pomodoro settings. The source's
   * form inherits the three pomodoro fields, so they sit at its top level; they
   * are grouped in one record here, which changes no rule.
   */
  datatype UserDto = UserDto(
    email: Option<string>, name: Option<string>, password: Option<string>, startTimeOfDay: Option<string>,
    pomodoro: PomodoroSettingsDto)

  /** An absent field passes; a present one must satisfy `p`. */
  predicate IfPresent<T>(field: Option<T>, p: T -> bool) {
    field.None? || p(field.value)
  }

  predicate AtLeastOne(n: int) { n >= 1 }

  predicate OneToTen(n: int) { 1 <= n <= 10 }

  /** The variation selectors U+FE0E and U+FE0F, which pick text or emoji presentation. */
  predicate IsVariationSelector(c: char) { c == '\U{FE0E}' || c == '\U{FE0F}' }

  predicate Counted(c: char) { !IsVariationSelector(c) }

  /**
   * The length `MinLength` measures (validator.js `isLength`): the characters
   * of the string, a character outside the Basic Multilingual Plane counting
   * once although it takes two UTF-16 units, and a variation selector not at all.
   */
  function ValidatorLength(s: string): (n: nat)
    ensures n <= |s|
  {
    Seqs.Count(s, Counted)
  }

  /** `MinLength(6)`. */
  predicate LongEnough(password: string) { ValidatorLength(password) >= 6 }

  predicate PomodoroSettingsValid(dto: PomodoroSettingsDto) {
    && IfPresent(dto.workInterval, AtLeastOne)
    && IfPresent(dto.breakInterval, AtLeastOne)
    && IfPresent(dto.intervalCount, OneToTen)
  }

  /** Every character is either counted or a variation selector. */
  lemma {:induction false} ValidatorLengthSplit(s: string)
    ensures ValidatorLength(s) + Seqs.Count(s, IsVariationSelector) == |s|
  {
    if s != [] {
      ValidatorLengthSplit(s[1..]);
    }
  }

  /** The length of two strings written one after the other is the sum of their lengths. */
  lemma ValidatorLengthAppend(a: string, b: string)
    ensures ValidatorLength(a + b) == ValidatorLength(a) + ValidatorLength(b)
  {
    Seqs.FilterAppend(a, b, Counted);
  }

  /** A variation selector adds nothing to the length; any other character adds one. */
  lemma ValidatorLengthSnoc(s: string, c: char)
    ensures ValidatorLength(s + [c]) == ValidatorLength(s) + (if IsVariationSelector(c) then 0 else 1)
  {
    ValidatorLengthAppend(s, [c]);
    Seqs.FilterSingleton(c, Counted);
  }

  /** Without variation selectors the length is the number of characters. */
  lemma ValidatorLengthPlain(s: string)
    requires forall i :: 0 <= i < |s| ==> !IsVariationSelector(s[i])
    ensures ValidatorLength(s) == |s|
  {
    Seqs.FilterAll(s, Counted);
  }

  /**
   * Three emoji are three characters, too short, although they take six UTF-16
   * units; six letters are long enough.
   */
  lemma PasswordLengths()
    ensures !LongEnough("\U{1F600}\U{1F600}\U{1F600}")
    ensures LongEnough("secret")
  {
    ValidatorLengthPlain("\U{1F600}\U{1F600}\U{1F600}");
    ValidatorLengthPlain("secret");
  }

  // ---------------------------------------------------------------------------
  // The start time pattern `^([0-1]?[0-9]|2[0-3]):[0-5][0-9]$`

  predicate InRange(c: char, lo: char, hi: char) { lo <= c <= hi }

  /** The hour alternatives: `[0-1]?[0-9]` or `2[0-3]`. */
  predicate HourText(h: string) {
    || (|h| == 1 && InRange(h[0], '0', '9'))
    || (|h| == 2 && InRange(h[0], '0', '1') && InRange(h[1], '0', '9'))
    || (|h| == 2 && h[0] == '2' && InRange(h[1], '0', '3'))
  }

  /** The minutes `[0-5][0-9]`. */
  predicate MinuteText(m: string) {
    |m| == 2 && InRange(m[0], '0', '5') && InRange(m[1], '0', '9')
  }

  /** The anchored pattern: the colon can only stand after one or two hour digits. */
  predicate MatchesStartTime(s: string) {
    || (|s| == 4 && s[1] == ':' && HourText(s[..1]) && MinuteText(s[2..]))
    || (|s| == 5 && s[2] == ':' && HourText(s[..2]) && MinuteText(s[3..]))
  }

  predicate UserDtoValid(dto: UserDto, isEmail: string -> bool) {
    && IfPresent(dto.email, isEmail)
    && IfPresent(dto.password, LongEnough)
    && IfPresent(dto.startTimeOfDay, MatchesStartTime)
    && PomodoroSettingsValid(dto.pomodoro)
  }

  // ---------------------------------------------------------------------------
  // What the pattern means

  function Digit(n: nat): char
    requires n < 10
  {
    ('0' as int + n) as char
  }

  /** `n` written with two digits, zero first when it is below ten. */
  function TwoDigits(n: nat): (r: string)
    requires n < 100
    ensures |r| == 2
  {
    [Digit(n / 10), Digit(n % 10)]
  }

  /** The texts the pattern stands for: hours 0 to 23 with two digits, or 0 to 9 with one, then two-digit minutes 00 to 59. */
  predicate IsClockText(s: string, h: nat, m: nat) {
    h < 24 && m < 60 && (s == TwoDigits(h) + ":" + TwoDigits(m) || (h < 10 && s == [Digit(h)] + ":" + TwoDigits(m)))
  }

  function DigitValue(c: char): nat
    requires InRange(c, '0', '9')
  {
    c as int - '0' as int
  }

  lemma DigitRoundTrip(c: char)
    requires InRange(c, '0', '9')
    ensures DigitValue(c) < 10 && Digit(DigitValue(c)) == c
  {
  }

  lemma TwoDigitsOf(s: string)
    requires |s| == 2 && InRange(s[0], '0', '9') && InRange(s[1], '0', '9')
    ensures 10 * DigitValue(s[0]) + DigitValue(s[1]) < 100
    ensures TwoDigits(10 * DigitValue(s[0]) + DigitValue(s[1])) == s
  {
    var n := 10 * DigitValue(s[0]) + DigitValue(s[1]);
    assert n / 10 == DigitValue(s[0]) && n % 10 == DigitValue(s[1]);
    DigitRoundTrip(s[0]);
    DigitRoundTrip(s[1]);
  }

  /** Every text the pattern accepts is a clock time. */
  lemma MatchesIsClock(s: string) returns (h: nat, m: nat)
    requires MatchesStartTime(s)
    ensures IsClockText(s, h, m)
  {
    var k := if |s| == 4 then 1 else 2;
    var mm := s[k + 1..];
    TwoDigitsOf(mm);
    m := 10 * DigitValue(mm[0]) + DigitValue(mm[1]);
    if k == 1 {
      DigitRoundTrip(s[0]);
      h := DigitValue(s[0]);
      assert s == [Digit(h)] + ":" + TwoDigits(m);
    } else {
      var hh := s[..2];
      TwoDigitsOf(hh);
      h := 10 * DigitValue(hh[0]) + DigitValue(hh[1]);
      assert s == TwoDigits(h) + ":" + TwoDigits(m);
    }
  }

  /** Every clock time is accepted by the pattern. */
  lemma ClockMatches(s: string, h: nat, m: nat)
    requires IsClockText(s, h, m)
    ensures MatchesStartTime(s)
  {
    var mm := TwoDigits(m);
    assert MinuteText(mm);
    if s == TwoDigits(h) + ":" + mm {
      assert s[..2] == TwoDigits(h) && s[3..] == mm;
      assert HourText(s[..2]);
    } else {
      assert s[..1] == [Digit(h)] && s[2..] == mm;
    }
  }

  /** The pattern accepts exactly the clock times. */
  lemma StartTimeIff(s: string)
    ensures MatchesStartTime(s) <==> exists h: nat, m: nat :: IsClockText(s, h, m)
  {
    if MatchesStartTime(s) {
      var h, m := MatchesIsClock(s);
    }
    if exists h: nat, m: nat :: IsClockText(s, h, m) {
      var h: nat, m: nat :| IsClockText(s, h, m);
      ClockMatches(s, h, m);
    }
  }

  /** One-digit hours and the last minute of the day pass. */
  lemma StartTimeAccepted()
    ensures MatchesStartTime("9:05") && MatchesStartTime("23:59")
  {
    ClockMatches("9:05", 9, 5);
    ClockMatches("23:59", 23, 59);
  }

  /** Hour 24, a one-digit minute and minute 60 fail. */
  lemma StartTimeRejected()
    ensures !MatchesStartTime("24:00") && !MatchesStartTime("7:5") && !MatchesStartTime("12:60")
  {
  }

  // ---------------------------------------------------------------------------
  // Optional fields

  /** The form with this field dropped. */
  function WithoutField(dto: UserDto, field: nat): UserDto
    requires field < 7
  {
    match field
    case 0 => dto.(email := None)
    case 1 => dto.(name := None)
    case 2 => dto.(password := None)
    case 3 => dto.(startTimeOfDay := None)
    case 4 => dto.(pomodoro := dto.pomodoro.(workInterval := None))
    case 5 => dto.(pomodoro := dto.pomodoro.(breakInterval := None))
    case _ => dto.(pomodoro := dto.pomodoro.(intervalCount := None))
  }

  /** An empty form passes, and dropping any field never makes a valid form invalid. */
  lemma OmittedFieldsPass(dto: UserDto, field: nat, isEmail: string -> bool)
    requires field < 7
    ensures UserDtoValid(UserDto(None, None, None, None, PomodoroSettingsDto(None, None, None)), isEmail)
    ensures UserDtoValid(dto, isEmail) ==> UserDtoValid(WithoutField(dto, field), isEmail)
  {
  }
}
