/** Relative durations as they are typed, the expiry they become, its acceptance
    by the daemon, and the remaining time as it is shown. */
module Expiry {
  import opened Common

  // Numbers as text

  predicate IsDigit(c: char) {
    '0' <= c <= '9'
  }

  predicate AllDigits(s: string) {
    forall i :: 0 <= i < |s| ==> IsDigit(s[i])
  }

  function Value(digits: string): nat
    requires AllDigits(digits)
  {
    if digits == [] then 0
    else Value(digits[..|digits| - 1]) * 10 + (digits[|digits| - 1] as int - '0' as int)
  }

  /** Decimal, the most significant digit first. */
  lemma MoreDigits(digits: string, c: char, d: char)
    requires AllDigits(digits) && IsDigit(c) && IsDigit(d)
    ensures Value([c]) == c as int - 48
    ensures Value(digits + [d]) == 10 * Value(digits) + Value([d])
  {
    assert (digits + [d])[..|digits|] == digits && [d][..0] == [] && [c][..0] == [];
  }

  function DigitChar(d: nat): char
    requires d < 10
  {
    (d + '0' as int) as char
  }

  function Decimal(n: nat): (s: string)
    ensures s != [] && AllDigits(s)
  {
    if n < 10 then [DigitChar(n)] else Decimal(n / 10) + [DigitChar(n % 10)]
  }

  lemma {:induction false} DecimalHasValue(n: nat)
    ensures Value(Decimal(n)) == n
  {
    if n >= 10 {
      DecimalHasValue(n / 10);
      var s := Decimal(n);
      assert s[..|s| - 1] == Decimal(n / 10);
    } else {
      assert Decimal(n)[..0] == [];
    }
  }

  // Parsing a duration

  /** The White_Space property of Unicode, which `trim` removes. */
  predicate IsWhite(c: char) {
    var n := c as int;
    || 0x9 <= n <= 0xD || n == 0x20 || n == 0x85 || n == 0xA0 || n == 0x1680
    || 0x2000 <= n <= 0x200A || n == 0x2028 || n == 0x2029 || n == 0x202F || n == 0x205F || n == 0x3000
  }

  predicate AllWhite(s: string) {
    forall i :: 0 <= i < |s| ==> IsWhite(s[i])
  }

  function TrimStart(s: string): string {
    if s != [] && IsWhite(s[0]) then TrimStart(s[1..]) else s
  }

  function TrimEnd(s: string): string {
    if s != [] && IsWhite(s[|s| - 1]) then TrimEnd(s[..|s| - 1]) else s
  }

  function Trim(s: string): string {
    TrimEnd(TrimStart(s))
  }

  function CountDigits(s: string): (n: nat)
    ensures n <= |s| && AllDigits(s[..n]) && (n < |s| ==> !IsDigit(s[n]))
  {
    if s != [] && IsDigit(s[0]) then
      var n := CountDigits(s[1..]);
      assert forall i :: 1 <= i <= n ==> s[i] == s[1..][i - 1];
      n + 1
    else 0
  }

  function UnitSecs(unit: string): Option<nat> {
    match unit
    case "s" => Some(1)
    case "m" => Some(60)
    case "h" => Some(3600)
    case "d" => Some(86400)
    case "w" => Some(604800)
    case _ => None
  }

  datatype DurationError = MissingUnit | InvalidNumber | NotPositive | UnknownUnit | TooLarge

  function ParseDuration(text: string): Result<nat, DurationError> {
    var s := Trim(text);
    var n := CountDigits(s);
    if n == |s| then Err(MissingUnit)
    else if n == 0 || Value(s[..n]) > U64_MAX then Err(InvalidNumber)
    else if Value(s[..n]) == 0 then Err(NotPositive)
    else
      match UnitSecs(s[n..])
      case None => Err(UnknownUnit)
      case Some(unit) =>
        if Value(s[..n]) * unit > U64_MAX then Err(TooLarge) else Ok(Value(s[..n]) * unit)
  }

  // What is accepted

  /** White space, a number, a unit, white space; `secs` is number times unit. */
  ghost predicate Reads(text: string, before: string, digits: string, unit: string, after: string, secs: nat) {
    && text == before + digits + unit + after
    && AllWhite(before) && AllWhite(after)
    && digits != [] && AllDigits(digits)
    && (
      || (unit == "s" && secs == Value(digits))
      || (unit == "m" && secs == Value(digits) * 60)
      || (unit == "h" && secs == Value(digits) * 3600)
      || (unit == "d" && secs == Value(digits) * 86400)
      || (unit == "w" && secs == Value(digits) * 604800))
  }

  lemma {:induction false} TrimStartRemovesWhite(before: string, s: string)
    requires AllWhite(before) && s != [] && !IsWhite(s[0])
    ensures TrimStart(before + s) == s
  {
    if before == [] {
      assert before + s == s;
    } else {
      assert (before + s)[0] == before[0] && (before + s)[1..] == before[1..] + s;
      TrimStartRemovesWhite(before[1..], s);
    }
  }

  lemma {:induction false} TrimEndRemovesWhite(s: string, after: string)
    requires AllWhite(after) && s != [] && !IsWhite(s[|s| - 1])
    ensures TrimEnd(s + after) == s
  {
    if after == [] {
      assert s + after == s;
    } else {
      var n := |after| - 1;
      assert (s + after)[|s + after| - 1] == after[n] && (s + after)[..|s + after| - 1] == s + after[..n];
      TrimEndRemovesWhite(s, after[..n]);
    }
  }

  lemma {:induction false} TrimStartSplits(s: string) returns (before: string)
    ensures AllWhite(before) && s == before + TrimStart(s)
  {
    if s != [] && IsWhite(s[0]) {
      var rest := TrimStartSplits(s[1..]);
      before := [s[0]] + rest;
    } else {
      before := [];
    }
  }

  lemma {:induction false} TrimEndSplits(s: string) returns (after: string)
    ensures AllWhite(after) && s == TrimEnd(s) + after
  {
    if s != [] && IsWhite(s[|s| - 1]) {
      var rest := TrimEndSplits(s[..|s| - 1]);
      after := rest + [s[|s| - 1]];
    } else {
      after := [];
    }
  }

  lemma {:induction false} CountDigitsOf(digits: string, rest: string)
    requires AllDigits(digits) && rest != [] && !IsDigit(rest[0])
    ensures CountDigits(digits + rest) == |digits|
  {
    if digits == [] {
      assert digits + rest == rest;
    } else {
      assert (digits + rest)[0] == digits[0] && (digits + rest)[1..] == digits[1..] + rest;
      CountDigitsOf(digits[1..], rest);
    }
  }

  lemma UnitIsOneLetter(unit: string)
    requires UnitSecs(unit).Some?
    ensures |unit| == 1 && !IsWhite(unit[0]) && !IsDigit(unit[0]) && UnitSecs(unit).value >= 1
  {
  }

  lemma ReadsInUnits(text: string, before: string, digits: string, unit: string, after: string, secs: nat)
    requires text == before + digits + unit + after && AllWhite(before) && AllWhite(after)
    requires digits != [] && AllDigits(digits)
    ensures Reads(text, before, digits, unit, after, secs) <==>
      UnitSecs(unit).Some? && secs == Value(digits) * UnitSecs(unit).value
  {
    hide Value, IsWhite;
  }

  /** Every reading of a text that fits is what the parser returns. */
  lemma ReadingIsParsed(text: string, before: string, digits: string, unit: string, after: string, secs: nat)
    requires Reads(text, before, digits, unit, after, secs) && 0 < secs <= U64_MAX
    ensures ParseDuration(text) == Ok(secs)
  {
    ReadsInUnits(text, before, digits, unit, after, secs);
    hide IsWhite, Value, UnitSecs, Reads;
    UnitIsOneLetter(unit);
    DigitIsNotWhite(digits[0]);
    var s := digits + unit;
    assert text == before + (s + after);
    TrimStartRemovesWhite(before, s + after);
    TrimEndRemovesWhite(s, after);
    CountDigitsOf(digits, unit);
    assert s[..|digits|] == digits && s[|digits|..] == unit;
    FactorsAreBounded(Value(digits), UnitSecs(unit).value);
  }

  /** Why a text is refused: `digits` and `rest` are what white space surrounds. */
  lemma WhyRefused(text: string, before: string, digits: string, rest: string, after: string)
    requires text == before + digits + rest + after && AllWhite(before) && AllWhite(after)
    requires AllDigits(digits) && digits + rest != []
    requires rest != [] ==> !IsDigit(rest[0]) && !IsWhite(rest[|rest| - 1]) && (digits == [] ==> !IsWhite(rest[0]))
    ensures var r := ParseDuration(text);
      && (rest == [] <==> r == Err(MissingUnit))
      && (rest != [] && (digits == [] || Value(digits) > U64_MAX) <==> r == Err(InvalidNumber))
      && (rest != [] && digits != [] && Value(digits) == 0 <==> r == Err(NotPositive))
      && (rest != [] && digits != [] && 0 < Value(digits) <= U64_MAX && UnitSecs(rest).None? <==> r == Err(UnknownUnit))
  {
    hide IsWhite, Value, UnitSecs;
    var s := digits + rest;
    if digits != [] {
      DigitIsNotWhite(digits[0]);
      DigitIsNotWhite(digits[|digits| - 1]);
    }
    assert text == before + (s + after);
    TrimStartRemovesWhite(before, s + after);
    TrimEndRemovesWhite(s, after);
    if rest == [] {
      assert s == digits;
      CountAllDigits(digits);
    } else {
      CountDigitsOf(digits, rest);
      assert s[..|digits|] == digits && s[|digits|..] == rest;
    }
  }

  lemma {:induction false} CountAllDigits(digits: string)
    requires AllDigits(digits)
    ensures CountDigits(digits) == |digits|
  {
    if digits != [] {
      CountAllDigits(digits[1..]);
    }
  }

  lemma DigitIsNotWhite(c: char)
    ensures IsDigit(c) ==> !IsWhite(c)
  {
  }

  lemma FactorsAreBounded(value: nat, unit: nat)
    requires unit >= 1
    ensures value <= value * unit && (value * unit > 0 ==> value > 0) && (value > 0 ==> value * unit > 0)
  {
  }

  /** What the parser returns is a reading of the text. */
  lemma ParsedIsReading(text: string) returns (before: string, digits: string, unit: string, after: string)
    requires ParseDuration(text).Ok?
    ensures Reads(text, before, digits, unit, after, ParseDuration(text).value)
    ensures 0 < ParseDuration(text).value <= U64_MAX
  {
    hide IsWhite, Value;
    before := TrimStartSplits(text);
    after := TrimEndSplits(TrimStart(text));
    var s := Trim(text);
    var n := CountDigits(s);
    digits, unit := s[..n], s[n..];
    assert s == digits + unit;
    UnitIsOneLetter(unit);
    FactorsAreBounded(Value(digits), UnitSecs(unit).value);
    ReadsInUnits(text, before, digits, unit, after, ParseDuration(text).value);
  }

  /** A text is a duration of `secs` seconds if and only if it is a number and a
      unit between white space whose product is `secs`, positive, and fits in
      64 bits. */
  lemma ParseDurationIff(text: string, secs: nat)
    ensures ParseDuration(text) == Ok(secs) <==>
      0 < secs <= U64_MAX && exists before, digits, unit, after :: Reads(text, before, digits, unit, after, secs)
  {
    hide Reads, ParseDuration;
    if ParseDuration(text) == Ok(secs) {
      var before, digits, unit, after := ParsedIsReading(text);
    }
    if 0 < secs <= U64_MAX && exists before, digits, unit, after :: Reads(text, before, digits, unit, after, secs) {
      var before, digits, unit, after :| Reads(text, before, digits, unit, after, secs);
      ReadingIsParsed(text, before, digits, unit, after, secs);
    }
  }

  // The expiry

  /** Instants are nanoseconds since the Unix epoch; `latest` is the latest one
      the system's clock type can represent. */
  const SECOND := 1_000_000_000

  datatype ExpiryError = TooFar | BeforeEpoch | OutOfRange | NotInFuture

  /** On the client: the whole seconds since the epoch at `now` plus `secs`. */
  function UnixSecsAfter(now: int, secs: nat, latest: int): Result<nat, ExpiryError> {
    var at := now + secs * SECOND;
    if at > latest then Err(TooFar)
    else if at < 0 then Err(BeforeEpoch)
    else Ok(at / SECOND)
  }

  /** On the daemon: the time that remains, in nanoseconds. */
  function FutureExpiry(unixSecs: nat, clock: int, latest: int): Result<nat, ExpiryError> {
    if unixSecs * SECOND > latest then Err(OutOfRange)
    else if unixSecs * SECOND - clock <= 0 then Err(NotInFuture)
    else Ok(unixSecs * SECOND - clock)
  }

  // Showing what remains

  const UNITS := 4

  function Suffix(i: nat): string
    requires i < UNITS
  {
    if i == 0 then "d" else if i == 1 then "h" else if i == 2 then "m" else "s"
  }

  function Secs(i: nat): (n: nat)
    requires i < UNITS
    ensures n > 0
  {
    if i == 0 then 86400 else if i == 1 then 3600 else if i == 2 then 60 else 1
  }

  /** The first unit that fits, if any. */
  function Major(secs: nat, i: nat): (m: nat)
    requires i <= UNITS
    ensures i <= m <= UNITS && (m < UNITS ==> secs >= Secs(m))
    decreases UNITS - i
  {
    if i == UNITS || secs >= Secs(i) then i else Major(secs, i + 1)
  }

  function Part(count: nat, i: nat): string
    requires i < UNITS
  {
    Decimal(count) + Suffix(i)
  }

  function FormatRemaining(secs: nat): string {
    var i := Major(secs, 0);
    if i == UNITS then "0s"
    else
      var major := Part(secs / Secs(i), i);
      if i + 1 < UNITS && (secs % Secs(i)) / Secs(i + 1) > 0
      then major + " " + Part((secs % Secs(i)) / Secs(i + 1), i + 1)
      else major
  }

  lemma PartParses(count: nat, i: nat)
    requires i < UNITS && 0 < count * Secs(i) <= U64_MAX
    ensures ParseDuration(Part(count, i)) == Ok(count * Secs(i))
  {
    hide ParseDuration;
    DecimalHasValue(count);
    assert UnitSecs(Suffix(i)) == Some(Secs(i));
    assert Part(count, i) == "" + Decimal(count) + Suffix(i) + "";
    ReadsInUnits(Part(count, i), "", Decimal(count), Suffix(i), "", count * Secs(i));
    ReadingIsParsed(Part(count, i), "", Decimal(count), Suffix(i), "", count * Secs(i));
  }

  /** The text reads as one duration, or as two with a space between them, of
      `total` seconds together. */
  ghost predicate Shows(text: string, total: nat) {
    || ParseDuration(text) == Ok(total)
    || (exists a, b ::
      && text == a + " " + b
      && ParseDuration(a).Ok? && ParseDuration(b).Ok?
      && total == ParseDuration(a).value + ParseDuration(b).value)
  }

  /** The smallest unit that may be shown next to the major one. */
  function MinorSecs(secs: nat): (n: nat)
    ensures n > 0
  {
    var i := Major(secs, 0);
    if i + 1 < UNITS then Secs(i + 1) else 1
  }

  /** What is shown, in seconds. */
  function ShownSecs(secs: nat): (total: nat)
    ensures total <= secs < total + MinorSecs(secs)
  {
    secs - secs % MinorSecs(secs)
  }

  lemma MultiplesAreFarApart(x: int, unit: nat)
    ensures (x >= 1 ==> x * unit >= unit) && (x <= -1 ==> x * unit + unit <= 0)
  {
    assert (x - 1) * unit == x * unit - unit && (x + 1) * unit == x * unit + unit;
    if x >= 1 {
      FactorsAreNonNegative(x - 1, unit);
    } else if x <= -1 {
      FactorsAreNonNegative(-1 - x, unit);
      assert (-1 - x) * unit == -((x + 1) * unit);
    }
  }

  lemma FactorsAreNonNegative(x: nat, y: nat)
    ensures x * y >= 0
  {
  }

  lemma RemainderOf(n: nat, unit: nat, k: nat, rest: nat)
    requires unit > 0 && n == k * unit + rest && rest < unit
    ensures n % unit == rest
  {
    var x := k - n / unit;
    assert x * unit == k * unit - n / unit * unit == n % unit - rest;
    MultiplesAreFarApart(x, unit);
  }

  lemma Distributes(q: nat, ratio: nat, small: nat, h: nat)
    ensures (q * ratio + h) * small == q * (ratio * small) + h * small
  {
  }

  lemma DivMod(n: nat, unit: nat)
    requires unit > 0
    ensures n == n / unit * unit + n % unit && 0 <= n % unit < unit
  {
  }

  lemma TwoUnitsOf(n: nat, big: nat, small: nat, ratio: nat, q: nat, h: nat, rest: nat)
    requires big == ratio * small && n == q * big + h * small + rest && rest < small
    ensures n % small == rest
  {
    Distributes(q, ratio, small, h);
    RemainderOf(n, small, q * ratio + h, rest);
  }

  /** A number in a unit, in a smaller one that divides it, and the rest. */
  lemma TwoUnits(n: nat, big: nat, small: nat, ratio: nat)
    requires small > 0 && big > 0 && big == ratio * small
    ensures n - n % small == n / big * big + n % big / small * small
  {
    DivMod(n, big);
    DivMod(n % big, small);
    TwoUnitsOf(n, big, small, ratio, n / big, n % big / small, n % big % small);
  }

  lemma MajorAndMinor(secs: nat)
    requires secs > 0
    ensures var i := Major(secs, 0);
      && i < UNITS
      && secs / Secs(i) > 0
      && ShownSecs(secs) == secs / Secs(i) * Secs(i)
        + (if i + 1 < UNITS then secs % Secs(i) / Secs(i + 1) * Secs(i + 1) else 0)
  {
    var i := Major(secs, 0);
    assert Major(secs, 3) == 3;
    if i + 1 < UNITS {
      TwoUnits(secs, Secs(i), Secs(i + 1), if i == 0 then 24 else 60);
    }
  }

  /** The text shown for a positive time reads back as a positive time, at most
      the whole seconds left, that falls short by less than one minor unit: not
      at all when seconds are shown. */
  lemma ShownFallsShortOfLessThanAUnit(secs: nat)
    requires 0 < secs <= U64_MAX
    ensures Shows(FormatRemaining(secs), ShownSecs(secs))
    ensures 0 < ShownSecs(secs) <= secs
    ensures secs < ShownSecs(secs) + (if secs >= 86400 then 3600 else if secs >= 3600 then 60 else 1)
    ensures secs < 3600 ==> ShownSecs(secs) == secs
    ensures FormatRemaining(0) == "0s"
  {
    hide Part, ParseDuration, ShownSecs, Major;
    MajorAndMinor(secs);
    var i := Major(secs, 0);
    var count := secs / Secs(i);
    FactorsAreBounded(count, Secs(i));
    PartParses(count, i);
    var text := FormatRemaining(secs);
    if i + 1 < UNITS {
      var rest := secs % Secs(i) / Secs(i + 1);
      FactorsAreBounded(rest, Secs(i + 1));
      if rest > 0 {
        PartParses(rest, i + 1);
        assert text == Part(count, i) + " " + Part(rest, i + 1);
      }
    }
    MinorUnit(secs);
  }

  lemma MinorUnit(secs: nat)
    ensures secs > 0 ==> MinorSecs(secs) == if secs >= 86400 then 3600 else if secs >= 3600 then 60 else 1
  {
    assert Major(secs, 1) == if secs >= 3600 then 1 else Major(secs, 2);
    assert Major(secs, 2) == if secs >= 60 then 2 else Major(secs, 3);
  }

  // From the command line to the registry

  /** An expiry is computed exactly if it is an instant the clock can represent
      and not before 1970. */
  lemma ExpiryExistsIff(t0: int, secs: nat, latest: int)
    ensures UnixSecsAfter(t0, secs, latest).Ok? <==> 0 <= t0 + secs * 1_000_000_000 <= latest
    ensures UnixSecsAfter(t0, secs, latest) == Err(TooFar) <==> t0 + secs * 1_000_000_000 > latest
  {
  }

  /** A membership added for `text` at `t0` on the client and taken up at `t1` by
      the daemon. The stored expiry is within the last second before the asked
      one, never after it; it is accepted exactly while it lies ahead, so always
      up to one second less than asked, and never once the asked time is over.
      What is shown is never more than was asked, if the clock has not gone
      back. */
  lemma ExpiryIsWithinASecond(text: string, t0: int, t1: int, latest: int)
    requires ParseDuration(text).Ok? && UnixSecsAfter(t0, ParseDuration(text).value, latest).Ok?
    ensures var asked := t0 + ParseDuration(text).value * SECOND;
      var stored := UnixSecsAfter(t0, ParseDuration(text).value, latest).value;
      var accepted := FutureExpiry(stored, t1, latest);
      && asked - SECOND < stored * SECOND <= asked
      && (accepted.Ok? <==> stored * SECOND > t1)
      && (accepted.Ok? ==> accepted.value == stored * SECOND - t1)
      && (t1 <= asked - SECOND ==> accepted.Ok?)
      && (t1 >= asked ==> accepted.Err?)
      && (accepted.Ok? && t0 <= t1 ==>
        ShownSecs(accepted.value / SECOND) <= accepted.value / SECOND <= ParseDuration(text).value)
  {
    hide ParseDuration, ShownSecs;
    var d := ParseDuration(text).value;
    var stored := UnixSecsAfter(t0, d, latest).value;
    assert (t0 + d * SECOND) / SECOND == stored;
  }
}
