/**
 * Interval literal parsing from DateTimeUtils: which qualifier pairs (DAY TO SECOND, YEAR TO MONTH,
 * ...) are legal, the sub-parser layout of the period formatter built for a qualifier, the
 * best-match selection among those sub-parsers (OrderedPeriodParser.parseInto), and the sign
 * handling of parsePeriod.  The Joda sub-parsers themselves are abstract: each is a function from
 * its element layout, the text and a start position to an end position and a period.
 */
module DateTimeUtils {
  import opened Wrappers
  import opened Exceptions
  import opened JavaInts

  // ---------------------------------------------------------------------------
  // Interval fields and periods.

  datatype IntervalField = YEAR | MONTH | DAY | HOUR | MINUTE | SECOND

  function FieldName(f: IntervalField): string
  {
    match f
    case YEAR => "YEAR"
    case MONTH => "MONTH"
    case DAY => "DAY"
    case HOUR => "HOUR"
    case MINUTE => "MINUTE"
    case SECOND => "SECOND"
  }

  /** The position of a field from the largest unit to the smallest. */
  function Rank(f: IntervalField): (r: nat)
    ensures r <= 5
  {
    match f
    case YEAR => 0
    case MONTH => 1
    case DAY => 2
    case HOUR => 3
    case MINUTE => 4
    case SECOND => 5
  }

  function FieldAt(r: nat): (f: IntervalField)
    requires r <= 5
    ensures Rank(f) == r
  {
    if r == 0 then YEAR else if r == 1 then MONTH else if r == 2 then DAY
    else if r == 3 then HOUR else if r == 4 then MINUTE else SECOND
  }

  /** A Joda period with the standard field types, each a Java int. */
  datatype Period = Period(years: Int, months: Int, weeks: Int, days: Int, hours: Int, minutes: Int, seconds: Int, millis: Int)

  const Zero: Period := Period(0, 0, 0, 0, 0, 0, 0, 0)

  predicate NonNegative(p: Period)
  {
    p.years >= 0 && p.months >= 0 && p.weeks >= 0 && p.days >= 0 && p.hours >= 0
    && p.minutes >= 0 && p.seconds >= 0 && p.millis >= 0
  }

  predicate NonPositive(p: Period)
  {
    p.years <= 0 && p.months <= 0 && p.weeks <= 0 && p.days <= 0 && p.hours <= 0
    && p.minutes <= 0 && p.seconds <= 0 && p.millis <= 0
  }

  /** The first negative field's name, in the order Joda lists the field types. */
  function FirstNegativeField(p: Period): string
    requires !NonNegative(p)
  {
    if p.years < 0 then "years" else if p.months < 0 then "months" else if p.weeks < 0 then "weeks"
    else if p.days < 0 then "days" else if p.hours < 0 then "hours" else if p.minutes < 0 then "minutes"
    else if p.seconds < 0 then "seconds" else "millis"
  }

  /** Period.negated on a period whose fields are all non-negative (so no negation overflows). */
  function Negated(p: Period): (n: Period)
    requires NonNegative(p)
    ensures NonPositive(n)
    ensures n.years == -p.years && n.months == -p.months && n.weeks == -p.weeks && n.days == -p.days
      && n.hours == -p.hours && n.minutes == -p.minutes && n.seconds == -p.seconds && n.millis == -p.millis
  {
    Period(-p.years, -p.months, -p.weeks, -p.days, -p.hours, -p.minutes, -p.seconds, -p.millis)
  }

  // ---------------------------------------------------------------------------
  // The period formatter for a qualifier (cretePeriodFormatter).

  /**
   * One element of a PeriodFormatterBuilder: a field (SECOND stands for seconds with optional
   * milliseconds) or a literal separator.
   */
  datatype Element = FieldElement(field: IntervalField) | Literal(text: string)

  /** The builder's final elements, and the elements each sub-parser was built from, in order. */
  datatype PeriodFormat = PeriodFormat(elements: seq<Element>, parsers: seq<seq<Element>>)

  /** The literal the builder places after a field when a smaller field follows. */
  function Separator(f: IntervalField): string
  {
    if f == YEAR then "-" else if f == DAY then " " else ":"
  }

  /** The fall-through from a day-time field down to the end field or SECOND. */
  function DayTimeChain(f: IntervalField, end: IntervalField, elements: seq<Element>, parsers: seq<seq<Element>>)
    : (fmt: PeriodFormat)
    requires Rank(f) >= 2
    decreases 5 - Rank(f)
  {
    var e := elements + [FieldElement(f)];
    var ps := parsers + [e];
    if f == SECOND || f == end then PeriodFormat(e, ps)
    else DayTimeChain(FieldAt(Rank(f) + 1), end, e + [Literal(Separator(f))], ps)
  }

  function QualifierError(start: IntervalField, end: IntervalField): Exception
  {
    IllegalArgument("Invalid interval qualifier: " + FieldName(start) + " to " + FieldName(end))
  }

  /** The qualifier pairs a day-time interval accepts: a day-time field down to a smaller or equal one. */
  predicate DayTimePair(start: IntervalField, end: IntervalField)
  {
    2 <= Rank(start) <= Rank(end)
  }

  /** The qualifier pairs a year-month interval accepts. */
  predicate YearMonthPair(start: IntervalField, end: IntervalField)
  {
    Rank(start) <= Rank(end) <= 1
  }

  /** cretePeriodFormatter: a missing end field means the start field. */
  function CreatePeriodFormatter(start: IntervalField, endField: Option<IntervalField>): (r: Result<PeriodFormat, Exception>)
    ensures r.Err? <==> Rank(start) <= 1 && !YearMonthPair(start, if endField.Some? then endField.value else start)
    ensures r.Err? ==> r.error == QualifierError(start, if endField.Some? then endField.value else start)
  {
    var end := if endField.Some? then endField.value else start;
    match start
    case YEAR =>
      var years := [FieldElement(YEAR)];
      if end == YEAR then Ok(PeriodFormat(years, [years]))
      else
        var months := years + [Literal("-"), FieldElement(MONTH)];
        if end != MONTH then Err(QualifierError(start, end)) else Ok(PeriodFormat(months, [years, months]))
    case MONTH =>
      var months := [FieldElement(MONTH)];
      if end != MONTH then Err(QualifierError(start, end)) else Ok(PeriodFormat(months, [months]))
    case _ => Ok(DayTimeChain(start, end, [], []))
  }

  /**
   * The first m fields from start are laid out: field, separator, field, separator, ... and the
   * k-th sub-parser holds the elements up to and including the k-th field.
   */
  predicate Laid(elements: seq<Element>, parsers: seq<seq<Element>>, start: IntervalField, m: nat)
  {
    Rank(start) + m <= 6
    && |elements| <= 2 * m
    && |parsers| == m
    && (forall i :: 0 <= i < |elements| ==>
          (i % 2 == 0 ==> elements[i] == FieldElement(FieldAt(Rank(start) + i / 2)))
          && (i % 2 == 1 ==> elements[i] == Literal(Separator(FieldAt(Rank(start) + i / 2)))))
    && (forall k :: 0 <= k < m ==> 2 * k + 1 <= |elements| && parsers[k] == elements[..2 * k + 1])
  }

  /** The layout a formatter for start TO end has: every field in order, one sub-parser per field. */
  predicate Layout(fmt: PeriodFormat, start: IntervalField, end: IntervalField)
    requires Rank(start) <= Rank(end)
  {
    var n := Rank(end) - Rank(start) + 1;
    |fmt.elements| == 2 * n - 1
    && Laid(fmt.elements, fmt.parsers, start, n)
    && fmt.parsers[n - 1] == fmt.elements
  }

  /** Appending the next field, and a sub-parser ending with it, extends the layout by one field. */
  lemma AppendField(elements: seq<Element>, parsers: seq<seq<Element>>, start: IntervalField, m: nat, f: IntervalField)
    requires Laid(elements, parsers, start, m) && |elements| == 2 * m && Rank(start) + m <= 5
    requires f == FieldAt(Rank(start) + m)
    ensures Laid(elements + [FieldElement(f)], parsers + [elements + [FieldElement(f)]], start, m + 1)
  {
    var e := elements + [FieldElement(f)];
    assert forall k :: 0 <= k < m ==> e[..2 * k + 1] == elements[..2 * k + 1];
    assert e[..2 * m + 1] == e;
  }

  /** Appending the separator after the last field keeps the layout. */
  lemma AppendSeparator(elements: seq<Element>, parsers: seq<seq<Element>>, start: IntervalField, m: nat, f: IntervalField)
    requires Laid(elements, parsers, start, m + 1) && |elements| == 2 * m + 1
    requires f == FieldAt(Rank(start) + m)
    ensures Laid(elements + [Literal(Separator(f))], parsers, start, m + 1)
  {
    var e := elements + [Literal(Separator(f))];
    assert forall k :: 0 <= k < m + 1 ==> e[..2 * k + 1] == elements[..2 * k + 1];
  }

  /** The fall-through chain lays out the remaining fields down to the end field. */
  lemma {:induction false} DayTimeChainLayout(f: IntervalField, end: IntervalField, elements: seq<Element>,
                                              parsers: seq<seq<Element>>, start: IntervalField)
    requires 2 <= Rank(start) <= Rank(f) <= Rank(end)
    requires |elements| == 2 * (Rank(f) - Rank(start)) && Laid(elements, parsers, start, Rank(f) - Rank(start))
    ensures Layout(DayTimeChain(f, end, elements, parsers), start, end)
    decreases 5 - Rank(f)
  {
    var m := Rank(f) - Rank(start);
    var e := elements + [FieldElement(f)];
    var ps := parsers + [e];
    AppendField(elements, parsers, start, m, f);
    if !(f == SECOND || f == end) {
      AppendSeparator(e, ps, start, m, f);
      DayTimeChainLayout(FieldAt(Rank(f) + 1), end, e + [Literal(Separator(f))], ps, start);
    } else {
      assert ps[m] == e;
    }
  }

  /** For every legal qualifier the formatter has one sub-parser per field, each a prefix of the next. */
  lemma FormatterLayout(start: IntervalField, end: IntervalField)
    requires DayTimePair(start, end) || YearMonthPair(start, end)
    ensures CreatePeriodFormatter(start, Some(end)).Ok?
    ensures Layout(CreatePeriodFormatter(start, Some(end)).value, start, end)
  {
    if DayTimePair(start, end) {
      DayTimeChainLayout(start, end, [], [], start);
    } else if start == YEAR && end == MONTH {
      var fmt := CreatePeriodFormatter(start, Some(end)).value;
      assert fmt.elements == [FieldElement(YEAR), Literal("-"), FieldElement(MONTH)];
      assert fmt.parsers[0] == fmt.elements[..1];
    }
  }

  // ---------------------------------------------------------------------------
  // OrderedPeriodParser.parseInto.

  /**
   * What a Joda sub-parser returns: the position after what it consumed (at least the start
   * position), or the complement of the failure position (negative); and the period it filled.
   */
  datatype SubParse = SubParse(position: int, period: Period)

  /** A sub-parser, by the element layout it was built from, applied to a text from a position. */
  type SubParser = (seq<Element>, string, int) -> SubParse

  /** The outcome of each sub-parser on the text from the position. */
  function Outcomes(parsers: seq<seq<Element>>, text: string, position: int, parse: SubParser): (os: seq<SubParse>)
    ensures |os| == |parsers|
    ensures forall k :: 0 <= k < |parsers| ==> os[k] == parse(parsers[k], text, position)
  {
    seq(|parsers|, k requires 0 <= k < |parsers| => parse(parsers[k], text, position))
  }

  /** The three variables parseInto keeps: best valid end and its period, best failure position. */
  datatype Best = Best(validPos: int, validPeriod: Option<Period>, invalidPos: int)

  datatype ScanState = ScanState(best: Best, stopped: bool)

  /** One iteration of the loop body. */
  function Step(b: Best, o: SubParse, position: int): Best
  {
    if o.position >= position then
      if o.position > b.validPos then Best(o.position, Some(o.period), b.invalidPos) else b
    else if o.position < 0 then
      var failure := -o.position - 1;
      if failure > b.invalidPos then b.(invalidPos := failure) else b
    else b
  }

  /** Whether that iteration breaks out of the loop: a new best that reaches the end of the text. */
  predicate Breaks(b: Best, o: SubParse, position: int, textLength: nat)
  {
    o.position >= position && o.position > b.validPos && o.position >= textLength
  }

  /** The state after the first n sub-parsers, or at the break if one came earlier. */
  function Scan(os: seq<SubParse>, n: nat, position: int, textLength: nat): ScanState
    requires n <= |os|
  {
    if n == 0 then ScanState(Best(position, None, position), false)
    else
      var s := Scan(os, n - 1, position, textLength);
      if s.stopped then s
      else ScanState(Step(s.best, os[n - 1], position), Breaks(s.best, os[n - 1], position, textLength))
  }

  /** What parseInto returns and the period it installs, if any. */
  function ParseIntoResult(os: seq<SubParse>, position: int, textLength: nat): (int, Option<Period>)
  {
    var b := Scan(os, |os|, position, textLength).best;
    if b.validPos > position || b.validPos == position then (b.validPos, b.validPeriod)
    else (-b.invalidPos - 1, None)
  }

  /** Once the loop has broken out, later sub-parsers change nothing. */
  lemma {:induction false} ScanStaysStopped(os: seq<SubParse>, n: nat, m: nat, position: int, textLength: nat)
    requires n <= m <= |os| && Scan(os, n, position, textLength).stopped
    ensures Scan(os, m, position, textLength) == Scan(os, n, position, textLength)
    decreases m - n
  {
    if m > n {
      ScanStaysStopped(os, n, m - 1, position, textLength);
    }
  }

  method ParseInto(parsers: seq<seq<Element>>, text: string, position: int, parse: SubParser)
    returns (pos: int, installed: Option<Period>)
    ensures (pos, installed) == ParseIntoResult(Outcomes(parsers, text, position, parse), position, |text|)
  {
    ghost var os := Outcomes(parsers, text, position, parse);
    var bestValidPos := position;
    var bestValidPeriod: Option<Period> := None;
    var bestInvalidPos := position;
    var i := 0;
    while i < |parsers|
      invariant 0 <= i <= |parsers|
      invariant Scan(os, i, position, |text|) == ScanState(Best(bestValidPos, bestValidPeriod, bestInvalidPos), false)
    {
      var parsed := parse(parsers[i], text, position);
      var parsePos := parsed.position;
      if parsePos >= position {
        if parsePos > bestValidPos {
          bestValidPos := parsePos;
          bestValidPeriod := Some(parsed.period);
          if parsePos >= |text| {
            ScanStaysStopped(os, i + 1, |os|, position, |text|);
            break;
          }
        }
      } else if parsePos < 0 {
        parsePos := -parsePos - 1;
        if parsePos > bestInvalidPos {
          bestInvalidPos := parsePos;
        }
      }
      i := i + 1;
    }
    assert Scan(os, |os|, position, |text|).best == Best(bestValidPos, bestValidPeriod, bestInvalidPos);
    if bestValidPos > position || bestValidPos == position {
      pos := bestValidPos;
      installed := bestValidPeriod;
    } else {
      pos := -bestInvalidPos - 1;
      installed := None;
    }
  }

  /** A sub-parser outcome that would end the loop on its own: progress that reaches the end of the text. */
  predicate Reaches(o: SubParse, position: int, textLength: nat)
  {
    o.position > position && o.position >= textLength
  }

  /** The k-th sub-parser runs: no earlier one reached the end of the text. */
  predicate Examined(os: seq<SubParse>, k: nat, position: int, textLength: nat)
    requires k <= |os|
  {
    forall j :: 0 <= j < k ==> !Reaches(os[j], position, textLength)
  }

  /** The loop keeps bestValidPos at or above the start position, with a period exactly when above it. */
  lemma {:induction false} ScanBounds(os: seq<SubParse>, n: nat, position: int, textLength: nat)
    requires n <= |os|
    ensures var s := Scan(os, n, position, textLength);
      && s.best.validPos >= position
      && (s.best.validPeriod.None? <==> s.best.validPos == position)
      && (s.stopped <==> exists k :: 0 <= k < n && Reaches(os[k], position, textLength))
      && (!s.stopped ==> s.best.validPos == position || s.best.validPos < textLength)
  {
    if n > 0 {
      ScanBounds(os, n - 1, position, textLength);
      var s := Scan(os, n - 1, position, textLength);
      if !s.stopped && Reaches(os[n - 1], position, textLength) {
        assert Breaks(s.best, os[n - 1], position, textLength);
      }
    }
  }

  /** The best valid period is the one some sub-parser filled when it reached the best position. */
  lemma {:induction false} ScanWitness(os: seq<SubParse>, n: nat, position: int, textLength: nat)
    requires n <= |os|
    ensures var s := Scan(os, n, position, textLength);
      s.best.validPeriod.Some? ==>
        exists k :: 0 <= k < n && os[k] == SubParse(s.best.validPos, s.best.validPeriod.value)
  {
    if n > 0 {
      ScanWitness(os, n - 1, position, textLength);
      var s := Scan(os, n - 1, position, textLength);
      var t := Scan(os, n, position, textLength);
      if !s.stopped && os[n - 1].position >= position && os[n - 1].position > s.best.validPos {
        assert os[n - 1] == SubParse(t.best.validPos, t.best.validPeriod.value);
      }
    }
  }

  /** Every sub-parser examined so far ended at or before bestValidPos. */
  lemma {:induction false} ScanMaximal(os: seq<SubParse>, n: nat, position: int, textLength: nat)
    requires n <= |os|
    ensures var s := Scan(os, n, position, textLength);
      forall k :: 0 <= k < n && Examined(os, k, position, textLength) && os[k].position >= position
        ==> os[k].position <= s.best.validPos
  {
    if n > 0 {
      ScanMaximal(os, n - 1, position, textLength);
      ScanBounds(os, n - 1, position, textLength);
      var s := Scan(os, n - 1, position, textLength);
      var t := Scan(os, n, position, textLength);
      assert t.best.validPos >= s.best.validPos;
      if Examined(os, n - 1, position, textLength) && os[n - 1].position >= position {
        assert !s.stopped;
        assert os[n - 1].position <= t.best.validPos;
      }
    }
  }

  /** bestValidPos never drops below the start position, so the failure code is never returned. */
  lemma ParseIntoNeverFails(os: seq<SubParse>, position: int, textLength: nat)
    ensures ParseIntoResult(os, position, textLength).0 >= position
    ensures ParseIntoResult(os, position, textLength)
         == (Scan(os, |os|, position, textLength).best.validPos, Scan(os, |os|, position, textLength).best.validPeriod)
    ensures ParseIntoResult(os, position, textLength).1.None? <==> ParseIntoResult(os, position, textLength).0 == position
  {
    ScanBounds(os, |os|, position, textLength);
  }

  /**
   * The position parseInto returns is the largest any examined sub-parser reached, and the period
   * it installs is the one that sub-parser filled.
   */
  lemma ParseIntoIsBest(os: seq<SubParse>, position: int, textLength: nat)
    ensures var (pos, installed) := ParseIntoResult(os, position, textLength);
      && (installed.Some? ==> exists k :: 0 <= k < |os| && os[k] == SubParse(pos, installed.value))
      && (forall k :: 0 <= k < |os| && Examined(os, k, position, textLength) && os[k].position >= position
            ==> os[k].position <= pos)
  {
    ScanBounds(os, |os|, position, textLength);
    ScanWitness(os, |os|, position, textLength);
    ScanMaximal(os, |os|, position, textLength);
  }

  /** The first sub-parser that consumes the whole text wins, whatever the later ones would do. */
  lemma FirstCompleteParseWins(os: seq<SubParse>, j: nat, position: int, textLength: nat)
    requires j < |os| && Reaches(os[j], position, textLength)
    requires Examined(os, j, position, textLength)
    ensures ParseIntoResult(os, position, textLength) == (os[j].position, Some(os[j].period))
  {
    ScanBounds(os, j, position, textLength);
    ScanStaysStopped(os, j + 1, |os|, position, textLength);
  }

  /** When no sub-parser makes progress, parseInto returns the start position and installs nothing. */
  lemma NoProgressKeepsPosition(os: seq<SubParse>, position: int, textLength: nat)
    requires forall k :: 0 <= k < |os| ==> os[k].position <= position
    ensures ParseIntoResult(os, position, textLength) == (position, None)
  {
    ScanBounds(os, |os|, position, textLength);
    ScanWitness(os, |os|, position, textLength);
  }

  // ---------------------------------------------------------------------------
  // parsePeriod and the interval entry points.

  /**
   * PeriodFormatter.parsePeriod, which is not part of this model, taken as: run the parser from
   * position 0 on a zero period, and accept when the whole text was consumed.
   */
  function FormatterParse(fmt: PeriodFormat, text: string, parse: SubParser): (r: Result<Period, Exception>)
    ensures r.Err? ==> r.error.IllegalArgument?
  {
    var (pos, installed) := ParseIntoResult(Outcomes(fmt.parsers, text, 0, parse), 0, |text|);
    if pos >= |text| then Ok(if installed.Some? then installed.value else Zero)
    else Err(IllegalArgument("Invalid format: \"" + text + "\""))
  }

  predicate StartsWithMinus(value: string)
  {
    |value| >= 1 && value[0] == '-'
  }

  /** parsePeriod: one leading '-' is stripped and negates the parsed period, whose fields must all be non-negative. */
  function ParsePeriod(fmt: PeriodFormat, value: string, parse: SubParser): (r: Result<Period, Exception>)
    ensures r.Err? ==> r.error.IllegalArgument?
    ensures r.Ok? && StartsWithMinus(value) ==> NonPositive(r.value)
    ensures r.Ok? && !StartsWithMinus(value) ==> NonNegative(r.value)
  {
    var negative := StartsWithMinus(value);
    var text := if negative then value[1..] else value;
    match FormatterParse(fmt, text, parse)
    case Err(e) => Err(e)
    case Ok(period) =>
      if !NonNegative(period) then Err(IllegalArgument("Period field " + FirstNegativeField(period) + " is negative"))
      else Ok(if negative then Negated(period) else period)
  }

  /** A leading '-' gives exactly the negation of what the rest parses to, and fails exactly when the rest does. */
  lemma ParsePeriodSign(fmt: PeriodFormat, value: string, parse: SubParser)
    requires !StartsWithMinus(value)
    ensures ParsePeriod(fmt, "-" + value, parse).Ok? <==> ParsePeriod(fmt, value, parse).Ok?
    ensures ParsePeriod(fmt, value, parse).Ok? ==>
      ParsePeriod(fmt, "-" + value, parse).value == Negated(ParsePeriod(fmt, value, parse).value)
  {
    assert ("-" + value)[1..] == value;
  }

  /** The exception both entry points throw when the formatter rejects the value. */
  function InvalidInterval(value: string, start: IntervalField, end: IntervalField): (e: Exception)
    ensures e.Trino? && e.errorCode == "INVALID_FUNCTION_ARGUMENT"
    ensures start == end ==> e.message == "Invalid INTERVAL " + FieldName(start) + " value: " + value
    ensures start != end ==> e.message == "Invalid INTERVAL " + FieldName(start) + " TO " + FieldName(end) + " value: " + value
  {
    var message :=
      if start == end then "Invalid INTERVAL " + FieldName(start) + " value: " + value
      else "Invalid INTERVAL " + FieldName(start) + " TO " + FieldName(end) + " value: " + value;
    Trino("INVALID_FUNCTION_ARGUMENT", message)
  }

  /** The message names the end field exactly when it differs from the start field. */
  lemma InvalidIntervalNamesBothFieldsWhenDifferent(value: string, start: IntervalField, end: IntervalField)
    ensures (InvalidInterval(value, start, end).message == InvalidInterval(value, start, start).message) <==> start == end
  {
    var m1 := InvalidInterval(value, start, end).message;
    var m2 := InvalidInterval(value, start, start).message;
    var p := "Invalid INTERVAL " + FieldName(start);
    if start != end {
      assert m1[|p|] == ' ' && m1[|p| + 1] == 'T';
      assert m2[|p|] == ' ' && m2[|p| + 1] == 'v';
    }
  }

  /**
   * The try block of parsePeriodMillis and parsePeriodMonths up to the conversion: the parsed
   * period, with every IllegalArgumentException replaced by invalidInterval.
   */
  function ParseInterval(fmt: PeriodFormat, value: string, start: IntervalField, end: IntervalField, parse: SubParser)
    : (r: Result<Period, Exception>)
    ensures r.Err? ==> r.error == InvalidInterval(value, start, end)
    ensures r.Ok? <==> ParsePeriod(fmt, value, parse).Ok?
    ensures r.Ok? ==> r.value == ParsePeriod(fmt, value, parse).value
  {
    match ParsePeriod(fmt, value, parse)
    case Ok(period) => Ok(period)
    case Err(_) => Err(InvalidInterval(value, start, end))
  }

  /** The ten qualifier pairs parseDayTimeInterval tests for, in its order. */
  predicate ListedDayTimePair(start: IntervalField, end: IntervalField)
  {
    (start == DAY && end == SECOND) || (start == DAY && end == MINUTE) || (start == DAY && end == HOUR)
    || (start == DAY && end == DAY) || (start == HOUR && end == SECOND) || (start == HOUR && end == MINUTE)
    || (start == HOUR && end == HOUR) || (start == MINUTE && end == SECOND) || (start == MINUTE && end == MINUTE)
    || (start == SECOND && end == SECOND)
  }

  /** The listed pairs are exactly a day-time field down to a smaller or equal one. */
  lemma ListedDayTimePairs(start: IntervalField, end: IntervalField)
    ensures ListedDayTimePair(start, end) <==> DayTimePair(start, end)
  {
  }

  /**
   * IntervalDayTime.toMillis (days, hours, minutes, seconds, millis) and IntervalYearMonth.toMonths
   * (years, months), which are not part of this model: given as parameters that may fail.
   */
  type DayTimeConversion = (Int, Int, Int, Int, Int) -> Result<Long, Exception>
  type YearMonthConversion = (Int, Int) -> Result<Long, Exception>

  /** The catch clause around a conversion: an IllegalArgumentException becomes invalidInterval, any other failure passes. */
  function Caught(c: Result<Long, Exception>, value: string, start: IntervalField, end: IntervalField): (r: Result<Long, Exception>)
    ensures c.Ok? ==> r == c
    ensures c.Err? && c.error.IllegalArgument? ==> r == Err(InvalidInterval(value, start, end))
    ensures c.Err? && !c.error.IllegalArgument? ==> r == c
  {
    if c.Err? && c.error.IllegalArgument? then Err(InvalidInterval(value, start, end)) else c
  }

  /** parsePeriodMillis: the parsed period's day, hour, minute, second and millisecond fields converted to milliseconds. */
  function ParsePeriodMillis(fmt: PeriodFormat, value: string, start: IntervalField, end: IntervalField, parse: SubParser,
                             toMillis: DayTimeConversion): (r: Result<Long, Exception>)
    ensures ParseInterval(fmt, value, start, end, parse).Err? ==> r == Err(InvalidInterval(value, start, end))
    ensures ParseInterval(fmt, value, start, end, parse).Ok? ==>
      var p := ParseInterval(fmt, value, start, end, parse).value;
      r == Caught(toMillis(p.days, p.hours, p.minutes, p.seconds, p.millis), value, start, end)
    ensures r.Err? ==> !r.error.IllegalArgument?
  {
    match ParseInterval(fmt, value, start, end, parse)
    case Err(e) => Err(e)
    case Ok(p) => Caught(toMillis(p.days, p.hours, p.minutes, p.seconds, p.millis), value, start, end)
  }

  /** parsePeriodMonths: the parsed period's year and month fields converted to months. */
  function ParsePeriodMonths(value: string, fmt: PeriodFormat, start: IntervalField, end: IntervalField, parse: SubParser,
                             toMonths: YearMonthConversion): (r: Result<Long, Exception>)
    ensures ParseInterval(fmt, value, start, end, parse).Err? ==> r == Err(InvalidInterval(value, start, end))
    ensures ParseInterval(fmt, value, start, end, parse).Ok? ==>
      var p := ParseInterval(fmt, value, start, end, parse).value;
      r == Caught(toMonths(p.years, p.months), value, start, end)
    ensures r.Err? ==> !r.error.IllegalArgument?
  {
    match ParseInterval(fmt, value, start, end, parse)
    case Err(e) => Err(e)
    case Ok(p) => Caught(toMonths(p.years, p.months), value, start, end)
  }

  /** parseDayTimeInterval: the accepted qualifiers, each with the formatter built for it. */
  function ParseDayTimeInterval(value: string, start: IntervalField, endField: Option<IntervalField>, parse: SubParser,
                                toMillis: DayTimeConversion): (r: Result<Long, Exception>)
    ensures var end := if endField.Some? then endField.value else start;
      && (!DayTimePair(start, end) <==>
            r == Err(IllegalArgument("Invalid day second interval qualifier: " + FieldName(start) + " to " + FieldName(end))))
      && (DayTimePair(start, end) ==>
            r == ParsePeriodMillis(CreatePeriodFormatter(start, Some(end)).value, value, start, end, parse, toMillis))
  {
    var end := if endField.Some? then endField.value else start;
    if ListedDayTimePair(start, end) then
      ListedDayTimePairs(start, end);
      ParsePeriodMillis(CreatePeriodFormatter(start, Some(end)).value, value, start, end, parse, toMillis)
    else
      Err(IllegalArgument("Invalid day second interval qualifier: " + FieldName(start) + " to " + FieldName(end)))
  }

  /** parseYearMonthInterval: the accepted qualifiers, each with the formatter built for it. */
  function ParseYearMonthInterval(value: string, start: IntervalField, endField: Option<IntervalField>, parse: SubParser,
                                  toMonths: YearMonthConversion): (r: Result<Long, Exception>)
    ensures var end := if endField.Some? then endField.value else start;
      && (!YearMonthPair(start, end) <==>
            r == Err(IllegalArgument("Invalid year month interval qualifier: " + FieldName(start) + " to " + FieldName(end))))
      && (YearMonthPair(start, end) ==>
            r == ParsePeriodMonths(value, CreatePeriodFormatter(start, Some(end)).value, start, end, parse, toMonths))
  {
    var end := if endField.Some? then endField.value else start;
    if (start == YEAR && end == MONTH) || (start == YEAR && end == YEAR) || (start == MONTH && end == MONTH) then
      assert YearMonthPair(start, end);
      ParsePeriodMonths(value, CreatePeriodFormatter(start, Some(end)).value, start, end, parse, toMonths)
    else
      Err(IllegalArgument("Invalid year month interval qualifier: " + FieldName(start) + " to " + FieldName(end)))
  }

  /**
   * A successful day-time parse is the conversion of a parsed period whose fields all carry the
   * sign of the text: non-positive after a leading '-', non-negative otherwise.
   */
  lemma DayTimeIntervalSign(value: string, start: IntervalField, endField: Option<IntervalField>, parse: SubParser,
                            toMillis: DayTimeConversion)
    requires ParseDayTimeInterval(value, start, endField, parse, toMillis).Ok?
    ensures var end := if endField.Some? then endField.value else start;
      && DayTimePair(start, end)
      && var p := ParseInterval(CreatePeriodFormatter(start, Some(end)).value, value, start, end, parse);
      && p.Ok?
      && ParseDayTimeInterval(value, start, endField, parse, toMillis)
           == toMillis(p.value.days, p.value.hours, p.value.minutes, p.value.seconds, p.value.millis)
      && (StartsWithMinus(value) ==> NonPositive(p.value))
      && (!StartsWithMinus(value) ==> NonNegative(p.value))
  {
  }

  /** The year-month counterpart: the conversion of a period whose fields all carry the text's sign. */
  lemma YearMonthIntervalSign(value: string, start: IntervalField, endField: Option<IntervalField>, parse: SubParser,
                              toMonths: YearMonthConversion)
    requires ParseYearMonthInterval(value, start, endField, parse, toMonths).Ok?
    ensures var end := if endField.Some? then endField.value else start;
      && YearMonthPair(start, end)
      && var p := ParseInterval(CreatePeriodFormatter(start, Some(end)).value, value, start, end, parse);
      && p.Ok?
      && ParseYearMonthInterval(value, start, endField, parse, toMonths) == toMonths(p.value.years, p.value.months)
      && (StartsWithMinus(value) ==> NonPositive(p.value))
      && (!StartsWithMinus(value) ==> NonNegative(p.value))
  {
  }
}
