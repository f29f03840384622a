/** The duration-unit formatter: a table from time units to formatting
    functions that render a `long` amount followed by a unit suffix, plus the
    separator callers put between the rendered parts. The two ready-made
    instances use terse suffixes ("d", "h", ...) and English words
    ("day"/"days", ...). */
module TimeFormatter {
  import opened Wrappers
  import opened JavaLong

  /** The seven constants of `java.util.concurrent.TimeUnit`. */
  datatype TimeUnit =
    | NANOSECONDS | MICROSECONDS | MILLISECONDS | SECONDS | MINUTES | HOURS | DAYS

  /** `Enum.name()`: the constant's declared name. */
  function Name(u: TimeUnit): string {
    match u
    case NANOSECONDS => "NANOSECONDS"
    case MICROSECONDS => "MICROSECONDS"
    case MILLISECONDS => "MILLISECONDS"
    case SECONDS => "SECONDS"
    case MINUTES => "MINUTES"
    case HOURS => "HOURS"
    case DAYS => "DAYS"
  }

  function LowerChar(c: char): char {
    if 'A' <= c <= 'Z' then (c as int - 'A' as int + 'a' as int) as char else c
  }

  /** `String.toLowerCase()` on ASCII text. */
  function ToLower(s: string): (r: string)
    ensures |r| == |s|
    ensures forall i :: 0 <= i < |s| ==> r[i] == LowerChar(s[i])
  {
    seq(|s|, i requires 0 <= i < |s| => LowerChar(s[i]))
  }

  /** The units every formatter table must cover, in the order the
      constructor checks them. MICROSECONDS is deliberately not among them. */
  const REQUIRED_UNITS: seq<TimeUnit> := [DAYS, HOURS, MINUTES, SECONDS, MILLISECONDS, NANOSECONDS]

  /** The formatting functions stored in the table. Every instance the
      class creates uses one of the two static helpers below. */
  datatype UnitFormatter =
    | Simple(suffix: JString)
    | Plural(singular: JString, plural: JString)

  /** `pluralFormat(value, suffix, pluralSuffix)`: the decimal text of the
      value immediately followed (no space) by the singular suffix when the
      value is exactly 1, by the plural suffix otherwise. */
  function PluralFormat(value: Long, suffix: JString, pluralSuffix: JString): (r: string)
    ensures value == 1 ==> r == LongToString(value) + Text(suffix)
    ensures value != 1 ==> r == LongToString(value) + Text(pluralSuffix)
  {
    LongToString(value) + Text(if value == 1 then suffix else pluralSuffix)
  }

  /** `simpleFormat(value, suffix)`: the same suffix whatever the value. */
  function SimpleFormat(value: Long, suffix: JString): (r: string)
    ensures r == LongToString(value) + Text(suffix)
  {
    PluralFormat(value, suffix, suffix)
  }

  /** Calling a stored formatter (`LongFunction.apply`). */
  function Apply(f: UnitFormatter, value: Long): (r: string)
    ensures f.Simple? ==> r == LongToString(value) + Text(f.suffix)
    ensures f.Plural? ==> r == LongToString(value) + Text(if value == 1 then f.singular else f.plural)
  {
    match f
    case Simple(s) => SimpleFormat(value, s)
    case Plural(s, p) => PluralFormat(value, s, p)
  }

  /** A constructed formatter: its two final fields. The stored map is a copy
      of the caller's, so later changes to the caller's map cannot reach it. */
  datatype TimeFormatter = TimeFormatter(separator: string, formatterMap: map<TimeUnit, UnitFormatter>)
  {
    /** What the constructor guarantees of every instance. */
    ghost predicate Valid() {
      forall i :: 0 <= i < |REQUIRED_UNITS| ==> REQUIRED_UNITS[i] in formatterMap
    }
  }

  /** The exception `Objects.requireNonNull` throws, with its message. */
  datatype Error = NullPointerException(message: string)

  const SEPARATOR_MESSAGE: string := "separator should not be null"

  /** The text that follows the unit name in a constructor message. */
  const MISSING_UNIT_TAIL: string := " Formatter should not be null"

  /** The message naming a unit without a formatter: the unit's name in
      lower case, then " Formatter should not be null". */
  function MissingUnitMessage(u: TimeUnit): (r: string)
    ensures |r| == |Name(u)| + |MISSING_UNIT_TAIL|
    ensures r[|Name(u)|..] == MISSING_UNIT_TAIL
  {
    ToLower(Name(u)) + MISSING_UNIT_TAIL
  }

  /** The position of the first unit of `units` without a formatter, if any. */
  function FirstMissing(units: seq<TimeUnit>, m: map<TimeUnit, UnitFormatter>): (r: Option<nat>)
    ensures r.None? <==> forall i :: 0 <= i < |units| ==> units[i] in m
    ensures r.Some? ==> r.value < |units| && units[r.value] !in m
    ensures r.Some? ==> forall i :: 0 <= i < r.value ==> units[i] in m
  {
    if units == [] then None
    else if units[0] !in m then Some(0)
    else
      match FirstMissing(units[1..], m)
      case None => None
      case Some(k) => Some(k + 1)
  }

  /** The private constructor: checks the six required units in order, then
      the separator, and keeps a copy of the map. */
  function New(formatterMap: map<TimeUnit, UnitFormatter>, separator: JString): (r: Result<TimeFormatter, Error>)
    // success exactly when all six units have a formatter and the separator is not null
    ensures r.Success? <==> separator.Some? && forall u :: u in REQUIRED_UNITS ==> u in formatterMap
    // a built instance holds exactly the given table and separator
    ensures r.Success? ==> r.value.Valid()
    ensures r.Success? ==> r.value.formatterMap == formatterMap && r.value.separator == separator.value
    // the first missing unit, in checking order, is reported whatever the separator
    ensures forall i :: 0 <= i < |REQUIRED_UNITS| && REQUIRED_UNITS[i] !in formatterMap
                        && (forall j :: 0 <= j < i ==> REQUIRED_UNITS[j] in formatterMap)
                        ==> r == Failure(NullPointerException(MissingUnitMessage(REQUIRED_UNITS[i])))
    // the separator is checked only once every unit is present
    ensures (forall u :: u in REQUIRED_UNITS ==> u in formatterMap) && separator.None?
            ==> r == Failure(NullPointerException(SEPARATOR_MESSAGE))
  {
    match FirstMissing(REQUIRED_UNITS, formatterMap)
    case Some(k) => Failure(NullPointerException(MissingUnitMessage(REQUIRED_UNITS[k])))
    case None =>
      if separator.None? then Failure(NullPointerException(SEPARATOR_MESSAGE))
      else Success(TimeFormatter(separator.value, formatterMap))
  }

  /** `getFormatter(unit)`: the stored formatter, `None` (null) when the unit has none. */
  function GetFormatter(tf: TimeFormatter, u: TimeUnit): (r: Option<UnitFormatter>)
    ensures r.Some? <==> u in tf.formatterMap
    ensures r.Some? ==> r.value == tf.formatterMap[u]
  {
    Get(tf.formatterMap, u)
  }

  /** `getSeparator()`. */
  function GetSeparator(tf: TimeFormatter): (r: string)
    ensures r == tf.separator
  {
    tf.separator
  }

  /** Terse suffix of each required unit in `SIMPLE_FORMATTER`. */
  function TerseSuffix(u: TimeUnit): string
    requires u != MICROSECONDS
  {
    match u
    case DAYS => "d"
    case HOURS => "h"
    case MINUTES => "m"
    case SECONDS => "s"
    case MILLISECONDS => "ms"
    case NANOSECONDS => "ns"
  }

  /** English words of each required unit in `VERBOSE_FORMATTER`, singular then plural. */
  function Words(u: TimeUnit): (string, string)
    requires u != MICROSECONDS
  {
    match u
    case DAYS => ("day", "days")
    case HOURS => ("hour", "hours")
    case MINUTES => ("minute", "minutes")
    case SECONDS => ("second", "seconds")
    case MILLISECONDS => ("millisecond", "milliseconds")
    case NANOSECONDS => ("nanosecond", "nanoseconds")
  }

  /** The table `SIMPLE_FORMATTER` is built from: a `simpleFormat` with the
      terse suffix for each of the six required units. */
  const SIMPLE_TABLE: map<TimeUnit, UnitFormatter> :=
    map[DAYS := Simple(Some(TerseSuffix(DAYS))),
        HOURS := Simple(Some(TerseSuffix(HOURS))),
        MINUTES := Simple(Some(TerseSuffix(MINUTES))),
        SECONDS := Simple(Some(TerseSuffix(SECONDS))),
        MILLISECONDS := Simple(Some(TerseSuffix(MILLISECONDS))),
        NANOSECONDS := Simple(Some(TerseSuffix(NANOSECONDS)))]

  /** The table `VERBOSE_FORMATTER` is built from: a `pluralFormat` with the
      unit's English words for each of the six required units. */
  const VERBOSE_TABLE: map<TimeUnit, UnitFormatter> :=
    map[DAYS := VerboseEntry(DAYS),
        HOURS := VerboseEntry(HOURS),
        MINUTES := VerboseEntry(MINUTES),
        SECONDS := VerboseEntry(SECONDS),
        MILLISECONDS := VerboseEntry(MILLISECONDS),
        NANOSECONDS := VerboseEntry(NANOSECONDS)]

  function VerboseEntry(u: TimeUnit): UnitFormatter
    requires u != MICROSECONDS
  {
    Plural(Some(Words(u).0), Some(Words(u).1))
  }

  lemma SimpleTableEntries()
    ensures forall u :: u in SIMPLE_TABLE <==> u != MICROSECONDS
    ensures forall u :: u in SIMPLE_TABLE ==> SIMPLE_TABLE[u] == Simple(Some(TerseSuffix(u)))
  {
    forall u ensures (u in SIMPLE_TABLE <==> u != MICROSECONDS) && (u in SIMPLE_TABLE ==> SIMPLE_TABLE[u] == Simple(Some(TerseSuffix(u)))) {
      match u
      case DAYS =>
      case HOURS =>
      case MINUTES =>
      case SECONDS =>
      case MILLISECONDS =>
      case NANOSECONDS =>
      case MICROSECONDS =>
    }
  }

  lemma VerboseTableEntries()
    ensures forall u :: u in VERBOSE_TABLE <==> u != MICROSECONDS
    ensures forall u :: u in VERBOSE_TABLE ==> VERBOSE_TABLE[u] == VerboseEntry(u)
  {
    forall u ensures (u in VERBOSE_TABLE <==> u != MICROSECONDS) && (u in VERBOSE_TABLE ==> VERBOSE_TABLE[u] == VerboseEntry(u)) {
      match u
      case DAYS =>
      case HOURS =>
      case MINUTES =>
      case SECONDS =>
      case MILLISECONDS =>
      case NANOSECONDS =>
      case MICROSECONDS =>
    }
  }

  /** The required units are exactly the units other than MICROSECONDS. */
  lemma RequiredUnitsAreAllButMicroseconds()
    ensures forall u :: u in REQUIRED_UNITS <==> u != MICROSECONDS
  {
    forall u ensures u in REQUIRED_UNITS <==> u != MICROSECONDS {
      match u
      case DAYS => assert REQUIRED_UNITS[0] == u;
      case HOURS => assert REQUIRED_UNITS[1] == u;
      case MINUTES => assert REQUIRED_UNITS[2] == u;
      case SECONDS => assert REQUIRED_UNITS[3] == u;
      case MILLISECONDS => assert REQUIRED_UNITS[4] == u;
      case NANOSECONDS => assert REQUIRED_UNITS[5] == u;
      case MICROSECONDS =>
    }
  }

  /** `SIMPLE_FORMATTER`: built by the constructor, which accepts its table. */
  function SimpleFormatter(): (tf: TimeFormatter)
    ensures tf.Valid() && GetSeparator(tf) == ":"
    ensures forall u :: u in REQUIRED_UNITS ==> GetFormatter(tf, u) == Some(Simple(Some(TerseSuffix(u))))
    ensures GetFormatter(tf, MICROSECONDS) == None
  {
    RequiredUnitsAreAllButMicroseconds();
    SimpleTableEntries();
    New(SIMPLE_TABLE, Some(":")).value
  }

  /** `VERBOSE_FORMATTER`: built by the constructor, which accepts its table. */
  function VerboseFormatter(): (tf: TimeFormatter)
    ensures tf.Valid() && GetSeparator(tf) == ":"
    ensures forall u :: u in REQUIRED_UNITS ==> GetFormatter(tf, u) == Some(Plural(Some(Words(u).0), Some(Words(u).1)))
    ensures GetFormatter(tf, MICROSECONDS) == None
  {
    RequiredUnitsAreAllButMicroseconds();
    VerboseTableEntries();
    New(VERBOSE_TABLE, Some(":")).value
  }
}
