/** What the formatter promises its callers: how the suffix is chosen, that the
    rendered amount can be read back, how construction fails, and what the two
    ready-made instances produce. */
module TimeFormatterProperties {
  import opened Wrappers
  import opened JavaLong
  import opened TimeFormatter

  lemma AppendCancel(a: string, x: string, y: string)
    ensures a + x == a + y <==> x == y
  {
    if a + x == a + y {
      assert (a + x)[|a|..] == x;
      assert (a + y)[|a|..] == y;
    }
  }

  /** The singular suffix is chosen exactly when the value is 1; 0, negative
      values and every other value take the plural suffix. */
  lemma PluralFormatChoosesSuffix(value: Long, suffix: JString, pluralSuffix: JString)
    requires Text(suffix) != Text(pluralSuffix)
    ensures PluralFormat(value, suffix, pluralSuffix) == LongToString(value) + Text(suffix) <==> value == 1
    ensures PluralFormat(value, suffix, pluralSuffix) == LongToString(value) + Text(pluralSuffix) <==> value != 1
  {
    AppendCancel(LongToString(value), Text(suffix), Text(pluralSuffix));
  }

  /** The output of `pluralFormat` splits back into the value and the suffix
      chosen for it, provided neither suffix starts with a digit. */
  lemma PluralFormatRoundTrip(value: Long, suffix: JString, pluralSuffix: JString)
    requires StartsWithNonDigit(Text(suffix)) && StartsWithNonDigit(Text(pluralSuffix))
    ensures SplitNumber(PluralFormat(value, suffix, pluralSuffix))
            == Some((value as int, if value == 1 then Text(suffix) else Text(pluralSuffix)))
  {
    SplitNumberRoundTrip(value, Text(if value == 1 then suffix else pluralSuffix));
  }

  /** The output of `simpleFormat` splits back into the value and the one
      suffix, whatever the value. */
  lemma SimpleFormatRoundTrip(value: Long, suffix: JString)
    requires StartsWithNonDigit(Text(suffix))
    ensures SplitNumber(SimpleFormat(value, suffix)) == Some((value as int, Text(suffix)))
  {
    SplitNumberRoundTrip(value, Text(suffix));
  }

  lemma AppendCancelRight(x: string, y: string, t: string)
    ensures x + t == y + t <==> x == y
  {
    if x + t == y + t {
      assert |x| == |y|;
      assert (x + t)[..|x|] == x;
      assert (y + t)[..|y|] == y;
    }
  }

  /** `simpleFormat` renders distinct values to distinct strings, whatever the suffix. */
  lemma SimpleFormatInjective(a: Long, b: Long, suffix: JString)
    ensures SimpleFormat(a, suffix) == SimpleFormat(b, suffix) <==> a == b
  {
    AppendCancelRight(LongToString(a), LongToString(b), Text(suffix));
    LongToStringInjective(a, b);
  }

  /** A stored formatter renders distinct values to distinct strings: always for
      `simpleFormat`, and for `pluralFormat` when neither suffix starts with a
      digit (otherwise `pluralFormat(1, "0", "")` and `pluralFormat(10, "0", "")`
      would both give "10"). */
  lemma ApplyInjective(f: UnitFormatter, a: Long, b: Long)
    requires f.Plural? ==> StartsWithNonDigit(Text(f.singular)) && StartsWithNonDigit(Text(f.plural))
    ensures Apply(f, a) == Apply(f, b) <==> a == b
  {
    match f
    case Simple(s) =>
      SimpleFormatInjective(a, b, s);
    case Plural(s, p) =>
      PluralFormatRoundTrip(a, s, p);
      PluralFormatRoundTrip(b, s, p);
  }

  /** Without that condition a `pluralFormat` formatter can merge two values:
      1 with singular "0" and 10 with an empty plural both give "10". */
  lemma PluralDigitSuffixCollision()
    ensures Apply(Plural(Some("0"), Some("")), 1) == "10"
    ensures Apply(Plural(Some("0"), Some("")), 10) == "10"
  {
    assert NatToDecimal(1) == "1";
    assert NatToDecimal(10) == NatToDecimal(1) + "0";
  }

  /** The unit name in a constructor message is the `TimeUnit` name with
      every letter in lower case. */
  lemma MissingUnitMessageIsLowerCase(u: TimeUnit)
    ensures forall i :: 0 <= i < |Name(u)| ==>
              MissingUnitMessage(u)[i] == LowerChar(Name(u)[i]) && !('A' <= MissingUnitMessage(u)[i] <= 'Z')
  {
    var r := MissingUnitMessage(u);
    forall i | 0 <= i < |Name(u)|
      ensures r[i] == LowerChar(Name(u)[i]) && !('A' <= r[i] <= 'Z')
    {
      assert r[i] == ToLower(Name(u))[i];
    }
  }

  lemma DaysMessage()
    ensures MissingUnitMessage(DAYS) == "days" + MISSING_UNIT_TAIL
  {
    assert ToLower("DAYS") == "days";
  }

  lemma HoursMessage()
    ensures MissingUnitMessage(HOURS) == "hours" + MISSING_UNIT_TAIL
  {
    assert ToLower("HOURS") == "hours";
  }

  lemma MinutesMessage()
    ensures MissingUnitMessage(MINUTES) == "minutes" + MISSING_UNIT_TAIL
  {
    assert ToLower("MINUTES") == "minutes";
  }

  lemma SecondsMessage()
    ensures MissingUnitMessage(SECONDS) == "seconds" + MISSING_UNIT_TAIL
  {
    assert ToLower("SECONDS") == "seconds";
  }

  lemma MillisecondsMessage()
    ensures MissingUnitMessage(MILLISECONDS) == "milliseconds" + MISSING_UNIT_TAIL
  {
    assert ToLower("MILLISECONDS") == "milliseconds";
  }

  lemma NanosecondsMessage()
    ensures MissingUnitMessage(NANOSECONDS) == "nanoseconds" + MISSING_UNIT_TAIL
  {
    assert ToLower("NANOSECONDS") == "nanoseconds";
  }

  /** Without a DAYS formatter construction fails naming days, whatever else
      is missing and whatever the separator. */
  lemma NewWithoutDays(m: map<TimeUnit, UnitFormatter>, separator: JString)
    requires DAYS !in m
    ensures New(m, separator) == Failure(NullPointerException("days" + MISSING_UNIT_TAIL))
  {
    assert REQUIRED_UNITS[0] == DAYS;
    assert New(m, separator) == Failure(NullPointerException(MissingUnitMessage(DAYS)));
    DaysMessage();
  }

  /** With DAYS present and HOURS missing, construction fails naming hours
      even when later units and the separator are missing too. */
  lemma NewWithoutHours(m: map<TimeUnit, UnitFormatter>, separator: JString)
    requires DAYS in m && HOURS !in m
    ensures New(m, separator) == Failure(NullPointerException("hours" + MISSING_UNIT_TAIL))
  {
    assert REQUIRED_UNITS[0] == DAYS && REQUIRED_UNITS[1] == HOURS;
    assert New(m, separator) == Failure(NullPointerException(MissingUnitMessage(HOURS)));
    HoursMessage();
  }

  /** With the first five units present and NANOSECONDS missing, construction
      fails naming nanoseconds, also when the separator is null. */
  lemma NewWithoutNanoseconds(m: map<TimeUnit, UnitFormatter>, separator: JString)
    requires DAYS in m && HOURS in m && MINUTES in m && SECONDS in m && MILLISECONDS in m
    requires NANOSECONDS !in m
    ensures New(m, separator) == Failure(NullPointerException("nanoseconds" + MISSING_UNIT_TAIL))
  {
    assert forall j :: 0 <= j < 5 ==> REQUIRED_UNITS[j] in m;
    assert REQUIRED_UNITS[5] == NANOSECONDS;
    assert New(m, separator) == Failure(NullPointerException(MissingUnitMessage(NANOSECONDS)));
    NanosecondsMessage();
  }

  /** With all six units present, a null separator is the one failure. */
  lemma NewWithoutSeparator(m: map<TimeUnit, UnitFormatter>)
    requires DAYS in m && HOURS in m && MINUTES in m && SECONDS in m && MILLISECONDS in m && NANOSECONDS in m
    ensures New(m, None) == Failure(NullPointerException("separator should not be null"))
  {
  }

  /** A missing MICROSECONDS formatter does not stop construction. */
  lemma NewIgnoresMicroseconds(m: map<TimeUnit, UnitFormatter>, separator: string)
    requires forall u :: u in REQUIRED_UNITS ==> u in m
    ensures New(m - {MICROSECONDS}, Some(separator)).Success?
  {
    RequiredUnitsAreAllButMicroseconds();
    var rest := m - {MICROSECONDS};
    assert forall u :: u in REQUIRED_UNITS ==> u in rest;
  }

  /** After construction the getters return exactly what was supplied: the
      formatter given for each unit, null for units without one, and the separator. */
  lemma GettersAfterNew(m: map<TimeUnit, UnitFormatter>, separator: string, u: TimeUnit)
    requires New(m, Some(separator)).Success?
    ensures GetSeparator(New(m, Some(separator)).value) == separator
    ensures GetFormatter(New(m, Some(separator)).value, u) == (if u in m then Some(m[u]) else None)
  {
  }

  /** Every constructed instance answers `getFormatter` for the six required units. */
  lemma ValidHasRequiredFormatters(tf: TimeFormatter, u: TimeUnit)
    requires tf.Valid() && u in REQUIRED_UNITS
    ensures GetFormatter(tf, u).Some?
  {
    var i :| 0 <= i < |REQUIRED_UNITS| && REQUIRED_UNITS[i] == u;
  }

  /** Every terse suffix is non-empty and starts with a lower-case letter. */
  lemma TerseSuffixStartsWithLetter(u: TimeUnit)
    requires u != MICROSECONDS
    ensures |TerseSuffix(u)| >= 1 && 'a' <= TerseSuffix(u)[0] <= 'z'
    ensures StartsWithNonDigit(TerseSuffix(u))
  {
    match u
    case DAYS => assert TerseSuffix(u) == "d";
    case HOURS => assert TerseSuffix(u) == "h";
    case MINUTES => assert TerseSuffix(u) == "m";
    case SECONDS => assert TerseSuffix(u) == "s";
    case MILLISECONDS => assert TerseSuffix(u) == "ms";
    case NANOSECONDS => assert TerseSuffix(u) == "ns";
  }

  /** Every singular and plural word is non-empty and starts with a lower-case letter. */
  lemma WordsStartWithLetters(u: TimeUnit)
    requires u != MICROSECONDS
    ensures |Words(u).0| >= 1 && 'a' <= Words(u).0[0] <= 'z'
    ensures |Words(u).1| >= 1 && 'a' <= Words(u).1[0] <= 'z'
    ensures StartsWithNonDigit(Words(u).0) && StartsWithNonDigit(Words(u).1)
  {
    match u
    case DAYS => assert Words(u) == ("day", "days");
    case HOURS => assert Words(u) == ("hour", "hours");
    case MINUTES => assert Words(u) == ("minute", "minutes");
    case SECONDS => assert Words(u) == ("second", "seconds");
    case MILLISECONDS => assert Words(u) == ("millisecond", "milliseconds");
    case NANOSECONDS => assert Words(u) == ("nanosecond", "nanoseconds");
  }


  /** `SIMPLE_FORMATTER` renders the value followed by the terse suffix of the unit. */
  lemma SimpleFormatterOutput(u: TimeUnit, value: Long)
    requires u in REQUIRED_UNITS
    ensures GetFormatter(SimpleFormatter(), u).Some?
    ensures Apply(GetFormatter(SimpleFormatter(), u).value, value) == LongToString(value) + TerseSuffix(u)
    ensures SplitNumber(Apply(GetFormatter(SimpleFormatter(), u).value, value)) == Some((value as int, TerseSuffix(u)))
  {
    assert u != MICROSECONDS;
    TerseSuffixStartsWithLetter(u);
    SplitNumberRoundTrip(value, TerseSuffix(u));
  }

  /** `VERBOSE_FORMATTER` renders the value followed by the singular word of
      the unit when the value is 1 and the plural word otherwise. */
  lemma VerboseFormatterOutput(u: TimeUnit, value: Long)
    requires u in REQUIRED_UNITS
    ensures GetFormatter(VerboseFormatter(), u).Some?
    ensures Apply(GetFormatter(VerboseFormatter(), u).value, value)
            == LongToString(value) + (if value == 1 then Words(u).0 else Words(u).1)
    ensures SplitNumber(Apply(GetFormatter(VerboseFormatter(), u).value, value))
            == Some((value as int, if value == 1 then Words(u).0 else Words(u).1))
  {
    assert u != MICROSECONDS;
    WordsStartWithLetters(u);
    SplitNumberRoundTrip(value, if value == 1 then Words(u).0 else Words(u).1);
  }

  lemma SmallRenderings()
    ensures LongToString(0) == "0" && LongToString(1) == "1" && LongToString(2) == "2"
    ensures LongToString(-1) == "-1"
  {
    assert NatToDecimal(1) == "1";
  }

  lemma SimpleDaysEntry()
    ensures GetFormatter(SimpleFormatter(), DAYS) == Some(Simple(Some("d")))
  {
    assert DAYS in REQUIRED_UNITS by { assert REQUIRED_UNITS[0] == DAYS; }
    assert TerseSuffix(DAYS) == "d";
  }

  lemma VerboseDaysEntry()
    ensures GetFormatter(VerboseFormatter(), DAYS) == Some(Plural(Some("day"), Some("days")))
  {
    assert DAYS in REQUIRED_UNITS by { assert REQUIRED_UNITS[0] == DAYS; }
    assert Words(DAYS) == ("day", "days");
  }

  lemma VerboseHoursEntry()
    ensures GetFormatter(VerboseFormatter(), HOURS) == Some(Plural(Some("hour"), Some("hours")))
  {
    assert HOURS in REQUIRED_UNITS by { assert REQUIRED_UNITS[1] == HOURS; }
    assert Words(HOURS) == ("hour", "hours");
  }

  lemma SimpleDaysRenderings(f: UnitFormatter)
    requires f == Simple(Some("d"))
    ensures Apply(f, 1) == "1d" && Apply(f, 2) == "2d"
  {
    SmallRenderings();
  }

  lemma VerboseDaysRenderings(f: UnitFormatter)
    requires f == Plural(Some("day"), Some("days"))
    ensures Apply(f, 1) == "1day" && Apply(f, 2) == "2days"
  {
    SmallRenderings();
  }

  lemma VerboseHoursRenderings(f: UnitFormatter)
    requires f == Plural(Some("hour"), Some("hours"))
    ensures Apply(f, 0) == "0hours" && Apply(f, -1) == "-1hours"
  {
    SmallRenderings();
  }

  /** DAYS with `SIMPLE_FORMATTER`: the suffix follows the number directly. */
  lemma SimpleDaysExamples()
    ensures Apply(GetFormatter(SimpleFormatter(), DAYS).value, 1) == "1d"
    ensures Apply(GetFormatter(SimpleFormatter(), DAYS).value, 2) == "2d"
  {
    SimpleDaysEntry();
    SimpleDaysRenderings(GetFormatter(SimpleFormatter(), DAYS).value);
  }

  /** DAYS with `VERBOSE_FORMATTER`: "1day" and "2days", with no space. */
  lemma VerboseDaysExamples()
    ensures Apply(GetFormatter(VerboseFormatter(), DAYS).value, 1) == "1day"
    ensures Apply(GetFormatter(VerboseFormatter(), DAYS).value, 2) == "2days"
  {
    VerboseDaysEntry();
    VerboseDaysRenderings(GetFormatter(VerboseFormatter(), DAYS).value);
  }

  /** Zero and negative amounts take the plural word too. */
  lemma VerboseZeroAndNegative()
    ensures Apply(GetFormatter(VerboseFormatter(), HOURS).value, 0) == "0hours"
    ensures Apply(GetFormatter(VerboseFormatter(), HOURS).value, -1) == "-1hours"
  {
    VerboseHoursEntry();
    VerboseHoursRenderings(GetFormatter(VerboseFormatter(), HOURS).value);
  }
}
