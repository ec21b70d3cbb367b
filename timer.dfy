/**
  The pure parts of TimerType in timer.hpp: the hh_mm_ss stand-in compiled
  before C++20, which splits a nanosecond count into hours, minutes, seconds
  and milliseconds by truncating casts, its text form, and the destructor's
  choice of display unit. Under C++20 the standard hh_mm_ss is used instead,
  whose sub-second field keeps nanosecond precision; that variant is not
  modelled. Durations are non-negative nanosecond counts, so truncation
  toward zero and Dafny's division agree.
*/
module Timer {

  import Decimal
  import Fields
  import opened Options

  const NanosPerMilli: nat := 1_000_000
  const NanosPerSecond: nat := 1_000_000_000
  const NanosPerMinute: nat := 60_000_000_000
  const NanosPerHour: nat := 3_600_000_000_000

  /** hours(): the duration truncated to whole hours. */
  function Hours(d: nat): (h: nat)
    ensures h * NanosPerHour <= d < (h + 1) * NanosPerHour
  {
    d / NanosPerHour
  }

  /** minutes(): the whole minutes left once the hours are taken off. */
  function Minutes(d: nat): (m: nat)
    ensures m < 60
    ensures m * NanosPerMinute <= d - Hours(d) * NanosPerHour < (m + 1) * NanosPerMinute
  {
    (d - Hours(d) * NanosPerHour) / NanosPerMinute
  }

  /** seconds(): the whole seconds left once the hours and minutes are taken off. */
  function Seconds(d: nat): (s: nat)
    ensures s < 60
    ensures s * NanosPerSecond <= d - Hours(d) * NanosPerHour - Minutes(d) * NanosPerMinute < (s + 1) * NanosPerSecond
  {
    (d - Hours(d) * NanosPerHour - Minutes(d) * NanosPerMinute) / NanosPerSecond
  }

  /** subseconds(): the whole milliseconds left once hours, minutes and seconds are taken off. */
  function Subseconds(d: nat): (ms: nat)
    ensures ms < 1000
    ensures ms * NanosPerMilli
            <= d - Hours(d) * NanosPerHour - Minutes(d) * NanosPerMinute - Seconds(d) * NanosPerSecond
            < (ms + 1) * NanosPerMilli
  {
    (d - Hours(d) * NanosPerHour - Minutes(d) * NanosPerMinute - Seconds(d) * NanosPerSecond) / NanosPerMilli
  }

  /** The duration the four fields stand for. */
  function Recomposed(h: nat, m: nat, s: nat, ms: nat): nat {
    h * NanosPerHour + m * NanosPerMinute + s * NanosPerSecond + ms * NanosPerMilli
  }

  /** The fields put back together fall short of the duration by less than a millisecond. */
  lemma RecomposeBound(d: nat)
    ensures Recomposed(Hours(d), Minutes(d), Seconds(d), Subseconds(d)) <= d
    ensures d < Recomposed(Hours(d), Minutes(d), Seconds(d), Subseconds(d)) + NanosPerMilli
  {
  }

  /**
    The decomposition is the only one with minutes and seconds below 60 and
    milliseconds below 1000 that lands within a millisecond below d.
  */
  lemma DecompositionUnique(d: nat, h: nat, m: nat, s: nat, ms: nat)
    requires m < 60 && s < 60 && ms < 1000
    requires Recomposed(h, m, s, ms) <= d < Recomposed(h, m, s, ms) + NanosPerMilli
    ensures h == Hours(d) && m == Minutes(d) && s == Seconds(d) && ms == Subseconds(d)
  {
  }

  /** Two quotients that both bracket n are the same. */
  lemma UniqueQuotient(n: nat, unit: nat, q1: nat, q2: nat)
    requires unit > 0
    requires q1 * unit <= n < (q1 + 1) * unit
    requires q2 * unit <= n < (q2 + 1) * unit
    ensures q1 == q2
  {
  }

  /** operator<<(hh_mm_ss): h:m:s.ms, each field in plain decimal without padding. */
  function Format(d: nat): string {
    Decimal.Text(Hours(d)) + ":" + Decimal.Text(Minutes(d)) + ":" + Decimal.Text(Seconds(d)) + "." + Decimal.Text(Subseconds(d))
  }

  /** Reads h:m:s.ms back into its four numbers, if the text has that form. */
  function ParseClock(text: string): Option<(nat, nat, nat, nat)> {
    match Fields.SplitAt(text, ':')
    case None => None
    case Some(first) =>
      match Fields.SplitAt(first.1, ':')
      case None => None
      case Some(second) =>
        match Fields.SplitAt(second.1, '.')
        case None => None
        case Some(third) =>
          if Decimal.AllDigits(first.0) && Decimal.AllDigits(second.0)
             && Decimal.AllDigits(third.0) && Decimal.AllDigits(third.1)
          then Some((Decimal.Value(first.0), Decimal.Value(second.0), Decimal.Value(third.0), Decimal.Value(third.1)))
          else None
  }

  lemma DigitsHaveNo(s: string, c: char)
    requires Decimal.AllDigits(s) && !Decimal.IsDigit(c)
    ensures c !in s
  {
  }

  /** The printed clock reads back as the four fields: the text loses nothing but the sub-millisecond rest. */
  lemma {:induction false} FormatReadsBack(d: nat)
    ensures ParseClock(Format(d)) == Some((Hours(d), Minutes(d), Seconds(d), Subseconds(d)))
  {
    var h, m, s, ms := Decimal.Text(Hours(d)), Decimal.Text(Minutes(d)), Decimal.Text(Seconds(d)), Decimal.Text(Subseconds(d));
    DigitsHaveNo(h, ':');
    DigitsHaveNo(m, ':');
    DigitsHaveNo(s, '.');
    assert Format(d) == h + [':'] + (m + [':'] + (s + ['.'] + ms));
    Fields.SplitAtFindsField(h, ':', m + [':'] + (s + ['.'] + ms));
    Fields.SplitAtFindsField(m, ':', s + ['.'] + ms);
    Fields.SplitAtFindsField(s, '.', ms);
    Decimal.ValueOfText(Hours(d));
    Decimal.ValueOfText(Minutes(d));
    Decimal.ValueOfText(Seconds(d));
    Decimal.ValueOfText(Subseconds(d));
  }

  /** Two durations that print alike lie in the same millisecond. */
  lemma FormatDeterminesMillisecond(d1: nat, d2: nat)
    requires Format(d1) == Format(d2)
    ensures d1 / NanosPerMilli == d2 / NanosPerMilli
  {
    FormatReadsBack(d1);
    FormatReadsBack(d2);
    RecomposeBound(d1);
    RecomposeBound(d2);
    var t := Recomposed(Hours(d1), Minutes(d1), Seconds(d1), Subseconds(d1));
    assert t % NanosPerMilli == 0;
    assert t == Recomposed(Hours(d2), Minutes(d2), Seconds(d2), Subseconds(d2));
    UniqueQuotient(d1, NanosPerMilli, t / NanosPerMilli, d1 / NanosPerMilli);
    UniqueQuotient(d2, NanosPerMilli, t / NanosPerMilli, d2 / NanosPerMilli);
  }

  /** What the destructor writes after the message: a value in the chosen unit. */
  datatype Reading =
    | InNanoseconds(count: nat)
    | InMicroseconds(value: real)
    | InMilliseconds(value: real)
    | InSeconds(value: real)
    | AsClock(text: string)

  /** The unit the destructor chooses for a duration of d nanoseconds, and the value it shows. */
  function ReadingOf(d: nat): (r: Reading)
    ensures r.InNanoseconds? <==> d < 1_000
    ensures r.InMicroseconds? <==> 1_000 <= d < NanosPerMilli
    ensures r.InMilliseconds? <==> NanosPerMilli <= d < NanosPerSecond
    ensures r.InSeconds? <==> NanosPerSecond <= d < 100 * NanosPerSecond
    ensures r.AsClock? <==> 100 * NanosPerSecond <= d
    ensures r.InNanoseconds? ==> r.count == d
    ensures r.InMicroseconds? ==> r.value * 1_000.0 == d as real
    ensures r.InMilliseconds? ==> r.value * 1_000_000.0 == d as real
    ensures r.InSeconds? ==> r.value * 1_000_000_000.0 == d as real
    ensures r.AsClock? ==> ParseClock(r.text) == Some((Hours(d), Minutes(d), Seconds(d), Subseconds(d)))
  {
    if d < 1_000 then InNanoseconds(d)
    else if d < NanosPerMilli then InMicroseconds(d as real / 1_000.0)
    else if d < NanosPerSecond then InMilliseconds(d as real / 1_000_000.0)
    else if d < 100 * NanosPerSecond then InSeconds(d as real / 1_000_000_000.0)
    else (FormatReadsBack(d); AsClock(Format(d)))
  }

  /** The unit's rank, smallest unit first. */
  function Rank(r: Reading): nat {
    match r
    case InNanoseconds(_) => 0
    case InMicroseconds(_) => 1
    case InMilliseconds(_) => 2
    case InSeconds(_) => 3
    case AsClock(_) => 4
  }

  /** A longer duration never gets a smaller unit. */
  lemma UnitMonotone(d1: nat, d2: nat)
    requires d1 <= d2
    ensures Rank(ReadingOf(d1)) <= Rank(ReadingOf(d2))
  {
  }

  /** The text that follows the value. */
  function Suffix(r: Reading): string {
    match r
    case InNanoseconds(_) => " nanoseconds (ns)\n"
    case InMicroseconds(_) => " microseconds (us)\n"
    case InMilliseconds(_) => " milliseconds (ms)\n"
    case InSeconds(_) => " seconds\n"
    case AsClock(_) => " (hh:mm:ss.ss)\n"
  }

  /** The destructor's line: the message, then the reading and its suffix. */
  datatype Line = Line(message: string, reading: Reading)

  /** What the destructor emits for a timer with this message that ran for d nanoseconds. */
  function Emitted(message: string, d: nat): (out: Option<Line>)
    ensures out.None? <==> message == ""
    ensures out.Some? ==> out.value.message == message && out.value.reading == ReadingOf(d)
  {
    if message == "" then None else Some(Line(message, ReadingOf(d)))
  }

  /** The suffix names the unit: two readings share a suffix exactly when they share a unit. */
  lemma SuffixIdentifiesUnit(r1: Reading, r2: Reading)
    ensures Suffix(r1) == Suffix(r2) <==> Rank(r1) == Rank(r2)
  {
  }
}
