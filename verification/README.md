# Duration-unit formatter, modelled in Dafny

This project models `ro.rasel.time.TimeFormatterImpl`, the duration-unit
formatter of the `common` utility library. A formatter holds a table from
`java.util.concurrent.TimeUnit` constants to formatting functions and a
separator string. Each formatting function renders a `long` amount followed
directly (no space) by a unit suffix. The suffix is fixed (`simpleFormat`) or
chosen between a singular and a plural word by whether the amount is exactly 1
(`pluralFormat`). The private constructor checks that DAYS, HOURS, MINUTES,
SECONDS, MILLISECONDS and NANOSECONDS all have a formatter and that the
separator is not null, then keeps a copy of the table. Two ready-made
instances exist: `SIMPLE_FORMATTER` (`d`, `h`, `m`, `s`, `ms`, `ns`) and
`VERBOSE_FORMATTER` (`day`/`days`, `hour`/`hours`, ...). Both use the
separator `":"`.

Files:

- `wrappers.dfy`: module `Wrappers`. `Option` stands for a nullable
  reference, `Result` for a call that may throw, and `Get` is `Map.get`.
- `java_long.dfy`: module `JavaLong`. It holds Java's `long` as the subset
  type `Long` of `int` over [-2^63, 2^63 - 1], and nullable strings with
  their concatenation text (`null` is appended as the letters `null`). It
  defines `LongToString`, the decimal text `value + suffix` produces
  (`Long.toString`), with its reading direction `SplitNumber`.
- `time_formatter.dfy`: module `TimeFormatter`. It holds the units, the
  formatting functions, the constructor `New`, the getters and the two
  ready-made instances.
- `time_formatter_properties.dfy`: module `TimeFormatterProperties`. It holds
  the lemmas about the formatter.

`pluralFormat` concatenates with no space (`value + suffix`), so DAYS with 1
renders as `"1day"` and with 2 as `"2days"` (`VerboseDaysExamples`).

## Model

| member | source | states |
|---|---|---|
| `JavaLong.NatToDecimal` | src/main/java/ro/rasel/time/TimeFormatterImpl.java:60 | the decimal digits of a magnitude: non-empty, all digits, leading `0` exactly for zero |
| `JavaLong.LongToString` | src/main/java/ro/rasel/time/TimeFormatterImpl.java:60 | the text `value +` gives a `long`: a leading `-` exactly for negatives, then digits with no leading zero |
| `JavaLong.LongToStringRoundTrip` | src/main/java/ro/rasel/time/TimeFormatterImpl.java:60 | reading the rendered text of any `long` back gives the same value |
| `JavaLong.LongToStringInjective` | src/main/java/ro/rasel/time/TimeFormatterImpl.java:60 | two `long` values render alike exactly when they are equal |
| `JavaLong.LongToStringLength` | src/main/java/ro/rasel/time/TimeFormatterImpl.java:60 | a rendered `long` is at most 20 characters long |
| `JavaLong.SplitNumberRoundTrip` | src/main/java/ro/rasel/time/TimeFormatterImpl.java:60 | a rendered `long` followed by text not starting with a digit splits back into the value and that text |
| `JavaLong.Text` | src/main/java/ro/rasel/time/TimeFormatterImpl.java:60 | a non-null suffix is appended as its own text and a null one as the four letters `null` |
| `TimeFormatter.SimpleFormat` | src/main/java/ro/rasel/time/TimeFormatterImpl.java:55-57 | `simpleFormat(v, s)` is the decimal of `v` followed by `s` for every `v`, 1 included (plural and singular suffix coincide) |
| `TimeFormatter.PluralFormat` | src/main/java/ro/rasel/time/TimeFormatterImpl.java:59-61 | `pluralFormat(v, s, p)` is the decimal of `v` followed by `s` when `v` is exactly 1 and by `p` for every other value, 0 and negatives included |
| `TimeFormatterProperties.PluralFormatChoosesSuffix` | src/main/java/ro/rasel/time/TimeFormatterImpl.java:59-61 | with distinct suffixes, the output is the decimal followed by the singular suffix iff the value is 1, and by the plural suffix iff it is not (0 and negatives included) |
| `TimeFormatterProperties.PluralFormatRoundTrip` | src/main/java/ro/rasel/time/TimeFormatterImpl.java:59-61 | when neither suffix starts with a digit, the output of `pluralFormat` splits back into the value and the suffix chosen for it |
| `TimeFormatterProperties.SimpleFormatRoundTrip` | src/main/java/ro/rasel/time/TimeFormatterImpl.java:55-57 | when the suffix does not start with a digit, the output of `simpleFormat` splits back into the value and the one suffix |
| `TimeFormatter.Apply` | src/main/java/ro/rasel/time/TimeFormatterImpl.java:23-38 | calling a stored formatter on a value gives `simpleFormat` with its one suffix or `pluralFormat` with its singular and plural suffixes |
| `TimeFormatterProperties.SimpleFormatInjective` | src/main/java/ro/rasel/time/TimeFormatterImpl.java:55-57 | `simpleFormat` renders distinct values to distinct strings, whatever the suffix (null included) |
| `TimeFormatterProperties.ApplyInjective` | src/main/java/ro/rasel/time/TimeFormatterImpl.java:23-38 | a stored formatter renders distinct values to distinct strings: a `simpleFormat` one always, a `pluralFormat` one when neither suffix starts with a digit |
| `TimeFormatterProperties.PluralDigitSuffixCollision` | src/main/java/ro/rasel/time/TimeFormatterImpl.java:59-61 | the digit condition of `ApplyInjective` is needed: singular "0" and plural "" render both 1 and 10 as "10" |
| `TimeFormatter.MissingUnitMessage` | src/main/java/ro/rasel/time/TimeFormatterImpl.java:48 | the message for a missing unit is as long as the unit name plus " Formatter should not be null", and ends with that text |
| `TimeFormatterProperties.MissingUnitMessageIsLowerCase` | src/main/java/ro/rasel/time/TimeFormatterImpl.java:48 | the message starts with the unit name lower-cased letter by letter, with no upper-case letter left |
| `TimeFormatterProperties.DaysMessage` | src/main/java/ro/rasel/time/TimeFormatterImpl.java:46-48 | the message for DAYS is exactly "days Formatter should not be null" |
| `TimeFormatterProperties.HoursMessage` | src/main/java/ro/rasel/time/TimeFormatterImpl.java:46-48 | the message for HOURS is exactly "hours Formatter should not be null" |
| `TimeFormatterProperties.MinutesMessage` | src/main/java/ro/rasel/time/TimeFormatterImpl.java:46-48 | the message for MINUTES is exactly "minutes Formatter should not be null" |
| `TimeFormatterProperties.SecondsMessage` | src/main/java/ro/rasel/time/TimeFormatterImpl.java:46-48 | the message for SECONDS is exactly "seconds Formatter should not be null" |
| `TimeFormatterProperties.MillisecondsMessage` | src/main/java/ro/rasel/time/TimeFormatterImpl.java:46-48 | the message for MILLISECONDS is exactly "milliseconds Formatter should not be null" |
| `TimeFormatterProperties.NanosecondsMessage` | src/main/java/ro/rasel/time/TimeFormatterImpl.java:46-48 | the message for NANOSECONDS is exactly "nanoseconds Formatter should not be null" |
| `TimeFormatter.FirstMissing` | src/main/java/ro/rasel/time/TimeFormatterImpl.java:46-48 | the position of the first unit, in checking order, without a formatter; none exactly when every unit has one |
| `TimeFormatter.New` | src/main/java/ro/rasel/time/TimeFormatterImpl.java:45-53 | succeeds iff all six required units have a formatter and the separator is not null; the first missing unit in the order DAYS..NANOSECONDS is reported by its lower-case name whatever the separator; a null separator is reported only when all units are present; a built instance holds exactly the given table and separator |
| `TimeFormatterProperties.NewWithoutDays` | src/main/java/ro/rasel/time/TimeFormatterImpl.java:46-48 | a table without DAYS fails with "days Formatter should not be null", whatever the separator |
| `TimeFormatterProperties.NewWithoutHours` | src/main/java/ro/rasel/time/TimeFormatterImpl.java:46-48 | with DAYS present and HOURS missing, the message names hours even if later units are missing too |
| `TimeFormatterProperties.NewWithoutNanoseconds` | src/main/java/ro/rasel/time/TimeFormatterImpl.java:46-49 | with the first five units present and NANOSECONDS missing, the message names nanoseconds even if the separator is null |
| `TimeFormatterProperties.NewWithoutSeparator` | src/main/java/ro/rasel/time/TimeFormatterImpl.java:49 | with all six units present, a null separator fails with "separator should not be null" |
| `TimeFormatterProperties.NewIgnoresMicroseconds` | src/main/java/ro/rasel/time/TimeFormatterImpl.java:46 | MICROSECONDS is not required: a table lacking it is accepted |
| `TimeFormatter.GetFormatter` | src/main/java/ro/rasel/time/TimeFormatterImpl.java:64-66 | `getFormatter(u)` returns the formatter stored for `u`, or null exactly when the table has none for it |
| `TimeFormatter.GetSeparator` | src/main/java/ro/rasel/time/TimeFormatterImpl.java:69-71 | `getSeparator()` returns the stored separator |
| `TimeFormatterProperties.GettersAfterNew` | src/main/java/ro/rasel/time/TimeFormatterImpl.java:64-71 | after construction `getFormatter(u)` is the formatter supplied for `u`, or null when none was, and `getSeparator()` is the separator supplied |
| `TimeFormatterProperties.ValidHasRequiredFormatters` | src/main/java/ro/rasel/time/TimeFormatterImpl.java:64-66 | every constructed instance returns a non-null formatter for each of the six required units |
| `TimeFormatter.SimpleFormatter` | src/main/java/ro/rasel/time/TimeFormatterImpl.java:21-30 | `SIMPLE_FORMATTER` is accepted by the constructor, has separator ":", maps each required unit to its terse suffix and has no MICROSECONDS formatter |
| `TimeFormatter.VerboseFormatter` | src/main/java/ro/rasel/time/TimeFormatterImpl.java:31-40 | `VERBOSE_FORMATTER` is accepted by the constructor, has separator ":", maps each required unit to its singular/plural English words and has no MICROSECONDS formatter |
| `TimeFormatterProperties.TerseSuffixStartsWithLetter` | src/main/java/ro/rasel/time/TimeFormatterImpl.java:23-28 | every terse suffix of `SIMPLE_FORMATTER` is non-empty and starts with a lower-case letter, so it cannot merge with the digits before it |
| `TimeFormatterProperties.WordsStartWithLetters` | src/main/java/ro/rasel/time/TimeFormatterImpl.java:33-38 | every singular and plural word of `VERBOSE_FORMATTER` is non-empty and starts with a lower-case letter, so it cannot merge with the digits before it |
| `TimeFormatterProperties.SimpleFormatterOutput` | src/main/java/ro/rasel/time/TimeFormatterImpl.java:21-30 | `SIMPLE_FORMATTER` renders every value of a required unit as its decimal followed by the terse suffix, and the value can be read back |
| `TimeFormatterProperties.VerboseFormatterOutput` | src/main/java/ro/rasel/time/TimeFormatterImpl.java:31-40 | `VERBOSE_FORMATTER` renders a value as its decimal followed by the singular word when it is 1 and the plural word otherwise, and the value can be read back |
| `TimeFormatterProperties.SimpleDaysExamples` | src/main/java/ro/rasel/time/TimeFormatterImpl.java:23 | DAYS gives "1d" for 1 and "2d" for 2 with `SIMPLE_FORMATTER` |
| `TimeFormatterProperties.VerboseDaysExamples` | src/main/java/ro/rasel/time/TimeFormatterImpl.java:33 | DAYS gives "1day" for 1 and "2days" for 2 with `VERBOSE_FORMATTER`, with no space between number and word |
| `TimeFormatterProperties.VerboseZeroAndNegative` | src/main/java/ro/rasel/time/TimeFormatterImpl.java:34 | HOURS with 0 gives "0hours" and with -1 gives "-1hours": only exactly 1 is singular |

## Left out

- The cryptography helper layer (`EncryptionUtils`, `KeyPairEncryptionUtils`,
  `CryptographyAlgorithm`, `EncodingUtils`). It wraps the platform's cipher
  and key-generation primitives, its key generation is non-deterministic, and
  its sources are not part of this model.
- `ro.rasel.collections.MapBuilder` is not part of this model. The formatter
  table reaches the constructor as a plain map.
- The `TimeFormatter` interface is not part of this model. `TimeUnit` is
  reduced to its seven constants and their names.
- Formatting functions are limited to the two the class builds itself
  (`simpleFormat` and `pluralFormat` lambdas), as the datatype
  `UnitFormatter`. Arbitrary `LongFunction` values cannot reach the private
  constructor from outside the class.
- A map entry whose value is null is modelled as an absent key. `Map.get`
  returns null in both cases, so the constructor and `getFormatter` behave
  the same.
- `getFormatter(null)` and a null key in the caller's map are not modelled:
  the model's `TimeUnit` has no null value. In Java, `HashMap.get(null)`
  returns null without an exception, so `getFormatter(null)` would return
  null.
- A null table passed to the constructor (a `NullPointerException` without
  a message from `formatterMap.get`) is not modelled. The constructor is
  private and its two callers pass built maps.
- Locale-dependent lower-casing: the unit names in the constructor's
  messages are lower-cased letter by letter over ASCII, as `toLowerCase()`
  does under a locale such as English. Under a Turkish default locale Java
  lower-cases `I` to a dotless `ı`, so the real messages for MINUTES and
  MILLISECONDS would differ.
- Defensive copy and immutability: the model's maps and instances are
  values, so a later change to the caller's map cannot reach an instance and
  an instance never changes. Aliasing is therefore not represented and
  nothing about it is proved.
