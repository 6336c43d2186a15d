/**
 The names of the client's logs (`src-tauri/src/diagnostics.rs`): a name gives back the segment it was
 made from under its own date, and nothing under any other, so a date and a segment stand for a file.
 */
module LogNames {
  import opened Common

  const LOG_FILE_PREFIX: string := "faforever-client."
  const LOG_FILE_SUFFIX: string := ".log"
  const MAX_U32: nat := 4_294_967_295

  predicate IsDigit(c: char) { '0' <= c <= '9' }

  /** A date as the names spell it: digits and dashes. */
  predicate IsDateText(date: string) {
    date != "" && forall i :: 0 <= i < |date| ==> IsDigit(date[i]) || date[i] == '-'
  }

  function DigitChar(n: nat): char
    requires n < 10
  {
    ('0' as int + n) as char
  }

  function DigitValue(c: char): nat
    requires IsDigit(c)
  {
    c as int - '0' as int
  }

  function Decimal(n: nat): string {
    if n < 10 then [DigitChar(n)] else Decimal(n / 10) + [DigitChar(n % 10)]
  }

  predicate AllDigits(s: string) {
    forall i :: 0 <= i < |s| ==> IsDigit(s[i])
  }

  function Value(s: string): nat
    requires AllDigits(s)
  {
    if s == "" then 0 else 10 * Value(s[..|s| - 1]) + DigitValue(s[|s| - 1])
  }

  /** A 32-bit number as the standard library reads one: an optional plus, digits, and no overflow. */
  function ParseU32(s: string): Option<nat> {
    var digits := if |s| > 1 && s[0] == '+' then s[1..] else s;
    if digits == "" || !AllDigits(digits) || Value(digits) > MAX_U32 then None else Some(Value(digits))
  }

  function LogName(date: string, segment: nat): string {
    LOG_FILE_PREFIX + date + (if segment == 0 then "" else "." + Decimal(segment)) + LOG_FILE_SUFFIX
  }

  predicate EndsWith(s: string, suffix: string) {
    |suffix| <= |s| && s[|s| - |suffix|..] == suffix
  }

  function StripPrefix(s: string, prefix: string): Option<string> {
    if prefix <= s then Some(s[|prefix|..]) else None
  }

  function StripSuffix(s: string, suffix: string): Option<string> {
    if EndsWith(s, suffix) then Some(s[..|s| - |suffix|]) else None
  }

  /** Every trailing suffix goes, not only one. */
  function TrimEndMatches(s: string, suffix: string): string
    requires suffix != ""
  {
    if EndsWith(s, suffix) then TrimEndMatches(s[..|s| - |suffix|], suffix) else s
  }

  /** The segment a directory entry is of a date, if it is one. */
  function ExistingSegment(date: string, name: string): Option<nat> {
    var base := LogName(date, 0);
    if name == base then Some(0)
    else
      var rest := StripPrefix(name, TrimEndMatches(base, LOG_FILE_SUFFIX));
      if rest.None? then None
      else
        var numbered := StripPrefix(rest.value, ".");
        if numbered.None? then None
        else
          var number := StripSuffix(numbered.value, LOG_FILE_SUFFIX);
          if number.None? then None else ParseU32(number.value)
  }

  lemma {:induction false} DecimalRoundTrip(n: nat)
    ensures Decimal(n) != "" && AllDigits(Decimal(n)) && Value(Decimal(n)) == n
  {
    if n < 10 {
      assert Decimal(n)[..0] == "";
    } else {
      DecimalRoundTrip(n / 10);
      assert Decimal(n)[..|Decimal(n)| - 1] == Decimal(n / 10);
    }
  }

  lemma TrimmedBase(date: string)
    requires IsDateText(date)
    ensures TrimEndMatches(LogName(date, 0), LOG_FILE_SUFFIX) == LOG_FILE_PREFIX + date
  {
    var base, stem := LogName(date, 0), LOG_FILE_PREFIX + date;
    assert base == stem + LOG_FILE_SUFFIX;
    assert base[..|base| - 4] == stem && base[|base| - 4..] == LOG_FILE_SUFFIX;
    assert stem[|stem| - 1] == date[|date| - 1] != 'g';
    EndsAlike(stem, LOG_FILE_SUFFIX);
  }

  lemma EndsAlike(s: string, suffix: string)
    requires suffix != ""
    ensures EndsWith(s, suffix) ==> s[|s| - 1] == suffix[|suffix| - 1]
  {
    if EndsWith(s, suffix) {
      assert s[|s| - |suffix|..][|suffix| - 1] == s[|s| - 1];
    }
  }

  /** A name belongs to exactly one date and gives back its segment: the directory can be read as dates and segments. */
  lemma NameRoundTrip(date: string, other: string, segment: nat)
    requires IsDateText(date) && IsDateText(other) && segment <= MAX_U32
    ensures ExistingSegment(date, LogName(other, segment)) == if date == other then Some(segment) else None
    ensures LOG_FILE_PREFIX <= LogName(other, segment) && EndsWith(LogName(other, segment), LOG_FILE_SUFFIX)
  {
    TrimmedBase(date);
    DecimalRoundTrip(segment);
    var name := LogName(other, segment);
    var middle := if segment == 0 then "" else "." + Decimal(segment);
    assert name == LOG_FILE_PREFIX + (other + (middle + LOG_FILE_SUFFIX));
    assert name[|name| - 4..] == LOG_FILE_SUFFIX;
    if date == other {
      if segment > 0 { OwnSegment(date, segment); }
    } else {
      OtherDate(date, other, segment);
    }
  }

  lemma OwnSegment(date: string, segment: nat)
    requires IsDateText(date) && 0 < segment <= MAX_U32
    ensures ExistingSegment(date, LogName(date, segment)) == Some(segment)
  {
    TrimmedBase(date);
    DecimalRoundTrip(segment);
    var name, stem := LogName(date, segment), LOG_FILE_PREFIX + date;
    assert name == stem + ("." + (Decimal(segment) + LOG_FILE_SUFFIX));
    assert |name| != |LogName(date, 0)|;
    assert name[|stem|..] == "." + (Decimal(segment) + LOG_FILE_SUFFIX);
    assert ("." + (Decimal(segment) + LOG_FILE_SUFFIX))[1..] == Decimal(segment) + LOG_FILE_SUFFIX;
    var tail := Decimal(segment) + LOG_FILE_SUFFIX;
    assert tail[|tail| - 4..] == LOG_FILE_SUFFIX && tail[..|tail| - 4] == Decimal(segment);
    assert IsDigit(Decimal(segment)[0]);
  }

  /** Past the prefix, the first dot of a name ends its date. */
  lemma OtherDate(date: string, other: string, segment: nat)
    requires IsDateText(date) && IsDateText(other) && date != other
    ensures ExistingSegment(date, LogName(other, segment)).None?
  {
    TrimmedBase(date);
    var name, stem, base := LogName(other, segment), LOG_FILE_PREFIX + date, LogName(date, 0);
    var n := |LOG_FILE_PREFIX|;
    var tail := (if segment == 0 then "" else "." + Decimal(segment)) + LOG_FILE_SUFFIX;
    assert name == LOG_FILE_PREFIX + (other + tail) && name[n..] == other + tail;
    assert base == stem + LOG_FILE_SUFFIX && base[..|stem|] == stem;
    if stem <= name {
      assert name[n..][..|date|] == date by { assert name[..|stem|] == stem; assert name[..|stem|][n..] == date; }
      DateBeforeDot(date, other, tail);
      assert name[|stem|..] == (other + tail)[|date|..];
      assert name[|stem|..][0] == other[|date|];
    }
  }

  /** A date that begins another date followed by a dot is shorter than that date. */
  lemma DateBeforeDot(date: string, other: string, tail: string)
    requires IsDateText(date) && IsDateText(other) && date != other
    requires tail != "" && tail[0] == '.' && date <= other + tail
    ensures |date| < |other|
  {
    var whole := other + tail;
    assert whole[|other|] == '.';
    assert forall i :: 0 <= i < |date| ==> date[i] == whole[i];
    assert forall i :: 0 <= i < |other| ==> other[i] == whole[i];
    EqualOrDifferent(date, other);
  }

  lemma EqualOrDifferent(a: string, b: string)
    ensures |a| == |b| && (forall i :: 0 <= i < |a| ==> a[i] == b[i]) ==> a == b
  {
  }
}
