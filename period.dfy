/**
 * The time-period parser that both slash-command handlers inline
 * (discord_move_bot.py:67-77 and 115-125), and the clock the handlers use.
 *
 * The handler splits the text on whitespace, requires exactly two words,
 * reads the first as a Python `int`, strips one trailing 's' from the unit,
 * re-appends 's' and passes the result as the one keyword argument of
 * `datetime.timedelta`. Durations and instants are integer microseconds:
 * every `timedelta` keyword is a whole number of microseconds.
 */
module Period {
  import opened Results

  // ---------------------------------------------------------------- clock

  const MicrosPerSecond: nat := 1_000_000
  const MicrosPerMinute: nat := 60 * MicrosPerSecond
  const MicrosPerHour: nat := 60 * MicrosPerMinute
  const MicrosPerDay: nat := 24 * MicrosPerHour
  const MicrosPerWeek: nat := 7 * MicrosPerDay

  /** `timedelta.min` is -999999999 days; `timedelta.max` is one microsecond short of 10^9 days. */
  const MinDuration: int := -999_999_999 * MicrosPerDay
  const MaxDuration: int := 1_000_000_000 * MicrosPerDay - 1

  /** Python's `datetime` spans 0001-01-01 to 9999-12-31: 3652059 days. */
  const LatestInstant: nat := 3_652_059 * MicrosPerDay - 1

  /** A `datetime`, as microseconds since 0001-01-01T00:00:00. */
  type Instant = t: int | 0 <= t <= LatestInstant

  // ---------------------------------------------------------------- errors

  /** The exceptions the handlers do NOT catch: `timedelta` raises TypeError for
      an unknown keyword and OverflowError for a duration out of its range. */
  datatype Uncaught = UnknownKeyword | Overflow

  /** `Malformed` is the ValueError that the handlers answer with
      "Invalid time period format"; `Raised` aborts the handler. */
  datatype PeriodError = Malformed | Raised(cause: Uncaught)

  // ---------------------------------------------------------------- str.split()

  /** The characters Python's `str.isspace` (and so `str.split()`) treats as whitespace. */
  predicate IsSpace(c: char) {
    c == ' ' || '\t' <= c <= '\r' || '\U{1c}' <= c <= '\U{1f}' || c == '\U{85}' || c == '\U{a0}'
    || c == '\U{1680}' || '\U{2000}' <= c <= '\U{200a}' || c == '\U{2028}' || c == '\U{2029}'
    || c == '\U{202f}' || c == '\U{205f}' || c == '\U{3000}'
  }

  /** A word that `str.split()` can produce: non-empty, no whitespace. */
  predicate IsWord(w: string) {
    w != [] && forall i :: 0 <= i < |w| ==> !IsSpace(w[i])
  }

  /** Whitespace only (the empty string included). */
  predicate IsBlank(s: string) {
    forall i :: 0 <= i < |s| ==> IsSpace(s[i])
  }

  /** `s` without its leading whitespace. */
  function TrimStart(s: string): (t: string)
    ensures |t| <= |s| && t == s[|s| - |t|..]
    ensures t == [] || !IsSpace(t[0])
  {
    if s != [] && IsSpace(s[0]) then TrimStart(s[1..]) else s
  }

  /** Only whitespace trims to nothing. */
  lemma {:induction false} TrimStartBlank(s: string)
    ensures TrimStart(s) == [] <==> IsBlank(s)
  {
    if s != [] && IsSpace(s[0]) {
      TrimStartBlank(s[1..]);
      assert forall i :: 1 <= i < |s| ==> s[i] == s[1..][i - 1];
    }
  }

  /** The longest prefix of `s` that holds no whitespace. */
  function LeadingWord(s: string): (w: string)
    ensures |w| <= |s| && w == s[..|w|]
    ensures forall i :: 0 <= i < |w| ==> !IsSpace(w[i])
    ensures |w| < |s| ==> IsSpace(s[|w|])
    ensures s != [] && !IsSpace(s[0]) ==> w != []
  {
    if s == [] || IsSpace(s[0]) then [] else [s[0]] + LeadingWord(s[1..])
  }

  /** `str.split()` with no separator: the maximal runs of non-whitespace, in order. */
  function Split(s: string): (ws: seq<string>)
    ensures forall w :: w in ws ==> IsWord(w)
    decreases |s|
  {
    var t := TrimStart(s);
    if t == [] then []
    else
      var w := LeadingWord(t);
      [w] + Split(t[|w|..])
  }

  // ---------------------------------------------------------------- int()

  predicate IsDigit(c: char) { '0' <= c <= '9' }

  predicate IsDigits(s: string) {
    s != [] && forall i :: 0 <= i < |s| ==> IsDigit(s[i])
  }

  /** The most digits `int()` converts: `sys.get_int_max_str_digits()` defaults to 4300
      (Python 3.11 and later, and the 3.7.14 to 3.10.7 security releases); a longer
      number raises ValueError. */
  const MaxIntDigits: nat := 4300

  /** What `int()` accepts here: an optional sign followed by at most `MaxIntDigits` ASCII decimal digits. */
  predicate IsInteger(s: string) {
    (IsDigits(s) && |s| <= MaxIntDigits)
    || (|s| >= 2 && (s[0] == '+' || s[0] == '-') && IsDigits(s[1..]) && |s| - 1 <= MaxIntDigits)
  }

  function DigitValue(c: char): nat
    requires IsDigit(c)
  {
    c as int - '0' as int
  }

  function DigitsValue(s: string): nat
    requires forall i :: 0 <= i < |s| ==> IsDigit(s[i])
  {
    if s == [] then 0 else 10 * DigitsValue(s[..|s| - 1]) + DigitValue(s[|s| - 1])
  }

  function IntegerValue(s: string): (n: int)
    requires IsInteger(s)
    ensures n < 0 ==> s[0] == '-'
    ensures s[0] == '-' ==> n <= 0
  {
    if s[0] == '-' then -(DigitsValue(s[1..]) as int)
    else if s[0] == '+' then DigitsValue(s[1..])
    else DigitsValue(s)
  }

  /** The decimal digits of `n`, most significant first (the inverse of `DigitsValue`). */
  function Digits(n: nat): (s: string)
    ensures IsDigits(s)
    ensures DigitsValue(s) == n
  {
    var last := [(('0' as int) + n % 10) as char];
    if n < 10 then last
    else
      var s := Digits(n / 10) + last;
      assert s[..|s| - 1] == Digits(n / 10);
      s
  }

  function Pow10(k: nat): (p: int)
    ensures p >= 1
  {
    if k == 0 then 1 else 10 * Pow10(k - 1)
  }

  /** A number below 10^k has at most k digits. */
  lemma {:induction false} DigitsLength(n: nat, k: nat)
    requires 1 <= k && n < Pow10(k)
    ensures |Digits(n)| <= k
  {
    if n >= 10 {
      assert k >= 2;
      DigitsLength(n / 10, k - 1);
    }
  }

  lemma {:induction false} Pow10Add(a: nat, b: nat)
    ensures Pow10(a + b) == Pow10(a) * Pow10(b)
  {
    if b > 0 {
      Pow10Add(a, b - 1);
      assert Pow10(a + b) == 10 * Pow10(a + b - 1);
    }
  }

  lemma {:induction false} Pow10Grows(a: nat, b: nat)
    requires a <= b
    ensures Pow10(a) <= Pow10(b)
  {
    if a < b {
      Pow10Grows(a, b - 1);
    }
  }

  /** `str(n)` for a Python int. */
  function Show(n: int): string {
    if n < 0 then "-" + Digits(-n) else Digits(n)
  }

  lemma ShowIsInteger(n: int)
    requires -Pow10(MaxIntDigits) < n < Pow10(MaxIntDigits)
    ensures IsInteger(Show(n)) && IntegerValue(Show(n)) == n
  {
    DigitsLength(if n < 0 then -n else n, MaxIntDigits);
    if n < 0 {
      assert Show(n)[1..] == Digits(-n);
    }
  }

  // ---------------------------------------------------------------- timedelta(**{unit + 's': n})

  predicate EndsWithS(u: string) { u != [] && u[|u| - 1] == 's' }

  /** The keyword the handler builds: strip one trailing 's', then append 's'. */
  function Keyword(unit: string): (k: string)
    ensures EndsWithS(unit) ==> k == unit
    ensures !EndsWithS(unit) ==> k == unit + "s"
  {
    (if EndsWithS(unit) then unit[..|unit| - 1] else unit) + "s"
  }

  /** The keyword arguments `timedelta` accepts, and how many microseconds one unit of each is. */
  function KeywordMicros(k: string): (u: Option<nat>)
    ensures u.Some? ==> EndsWithS(k) && 1 <= u.value <= MicrosPerWeek
  {
    match k
    case "weeks" => Some(MicrosPerWeek)
    case "days" => Some(MicrosPerDay)
    case "hours" => Some(MicrosPerHour)
    case "minutes" => Some(MicrosPerMinute)
    case "seconds" => Some(MicrosPerSecond)
    case "milliseconds" => Some(1000)
    case "microseconds" => Some(1)
    case _ => None
  }

  /** The `int(number)` and `timedelta(...)` steps, once the text has split into two words. */
  function Interpret(number: string, unit: string): (r: Result<int, PeriodError>)
    ensures r == Err(Malformed) <==> !IsInteger(number)
    ensures r == Err(Raised(UnknownKeyword)) <==> IsInteger(number) && KeywordMicros(Keyword(unit)).None?
    ensures r.Ok? <==> IsInteger(number) && KeywordMicros(Keyword(unit)).Some?
                       && MinDuration <= IntegerValue(number) * KeywordMicros(Keyword(unit)).value <= MaxDuration
    ensures r.Ok? ==> MinDuration <= r.value <= MaxDuration
    ensures r.Ok? ==> exists u :: KeywordMicros(Keyword(unit)) == Some(u) && r.value == IntegerValue(number) * u
  {
    if !IsInteger(number) then Err(Malformed)
    else
      match KeywordMicros(Keyword(unit))
      case None => Err(Raised(UnknownKeyword))
      case Some(u) =>
        var d := IntegerValue(number) * u;
        if MinDuration <= d <= MaxDuration then Ok(d) else Err(Raised(Overflow))
  }

  /** The inline parser of discord_move_bot.py:67-77 (and 115-125). */
  function ParseTimePeriod(text: string): (r: Result<int, PeriodError>)
    ensures r == Err(Malformed) <==> !(|Split(text)| == 2 && IsInteger(Split(text)[0]))
  {
    var ws := Split(text);
    if |ws| != 2 then Err(Malformed) else Interpret(ws[0], ws[1])
  }

  // ---------------------------------------------------------------- properties

  lemma {:induction false} TrimStartOfWord(s: string)
    requires s != [] && !IsSpace(s[0])
    ensures TrimStart(s) == s
  {
  }

  lemma {:induction false} LeadingWordOf(w: string, rest: string)
    requires forall i :: 0 <= i < |w| ==> !IsSpace(w[i])
    requires rest == [] || IsSpace(rest[0])
    ensures LeadingWord(w + rest) == w
  {
    if w != [] {
      assert (w + rest)[1..] == w[1..] + rest;
      LeadingWordOf(w[1..], rest);
    }
  }

  /** A word followed by whitespace or by nothing is the first word of the split. */
  lemma {:induction false} SplitWordThen(w: string, rest: string)
    requires IsWord(w)
    requires rest == [] || IsSpace(rest[0])
    ensures Split(w + rest) == [w] + Split(rest)
  {
    var s := w + rest;
    TrimStartOfWord(s);
    LeadingWordOf(w, rest);
    assert s[|w|..] == rest;
  }

  lemma {:induction false} SplitSpaceThen(c: char, rest: string)
    requires IsSpace(c)
    ensures Split([c] + rest) == Split(rest)
  {
    assert ([c] + rest)[1..] == rest;
  }

  /** Two words joined by one space split back into exactly those two words. */
  lemma SplitTwoWords(a: string, b: string)
    requires IsWord(a) && IsWord(b)
    ensures Split(a + " " + b) == [a, b]
  {
    var tail := [' '] + b;
    assert a + " " + b == a + tail;
    assert IsSpace(tail[0]);
    SplitWordThen(a, tail);
    SplitSpaceThen(' ', b);
    SplitOneWord(b);
  }

  lemma SplitOneWord(w: string)
    requires IsWord(w)
    ensures Split(w) == [w]
  {
    assert w + [] == w;
    SplitWordThen(w, []);
  }

  /** A text splits into no words exactly when it is all whitespace. */
  lemma SplitEmpty(s: string)
    ensures Split(s) == [] <==> IsBlank(s)
  {
    TrimStartBlank(s);
  }

  /** Leading whitespace does not change the split. */
  lemma {:induction false} SplitBlankThen(p: string, rest: string)
    requires IsBlank(p)
    ensures Split(p + rest) == Split(rest)
  {
    hide Split, TrimStart, LeadingWord;
    if p == [] {
      assert p + rest == rest;
    } else {
      assert p + rest == [p[0]] + (p[1..] + rest);
      SplitSpaceThen(p[0], p[1..] + rest);
      SplitBlankThen(p[1..], rest);
    }
  }

  /** Two words with any whitespace before, between (at least one character) and after
      them split into exactly those two words: `"  5\t days "` is `["5", "days"]`. */
  lemma SplitPadded(p: string, a: string, q: string, b: string, t: string)
    requires IsBlank(p) && IsBlank(q) && IsBlank(t) && q != []
    requires IsWord(a) && IsWord(b)
    ensures Split(p + a + q + b + t) == [a, b]
  {
    hide Split, TrimStart, LeadingWord;
    assert p + a + q + b + t == p + (a + (q + (b + t)));
    SplitBlankThen(p, a + (q + (b + t)));
    assert (q + (b + t))[0] == q[0];
    SplitWordThen(a, q + (b + t));
    SplitBlankThen(q, b + t);
    SplitWordThen(b, t);
    SplitEmpty(t);
  }

  /** Plural stripping: "<n> <u>" and "<n> <u>s" denote the same period. */
  lemma PluralIsSingular(n: string, u: string)
    requires IsWord(n) && IsWord(u) && !EndsWithS(u)
    ensures ParseTimePeriod(n + " " + u) == ParseTimePeriod(n + " " + (u + "s"))
  {
    hide Split, ParseTimePeriod, Interpret, Keyword;
    var us := u + "s";
    assert IsWord(us);
    ParseTwoWords(n, u);
    ParseTwoWords(n, us);
    assert EndsWithS(us) && us[..|us| - 1] == u;
    InterpretByKeyword(n, u, us);
  }

  lemma InterpretByKeyword(n: string, u: string, v: string)
    requires Keyword(u) == Keyword(v)
    ensures Interpret(n, u) == Interpret(n, v)
  {
  }

  /** A number `int()` accepts is one word. */
  lemma IntegerIsWord(s: string)
    requires IsInteger(s)
    ensures IsWord(s)
  {
    if !IsDigits(s) {
      assert forall i :: 1 <= i < |s| ==> s[1..][i - 1] == s[i];
    }
  }

  /** A whole number of units that `timedelta` can hold is far shorter than `int()`'s digit limit. */
  lemma {:induction false} DurationFitsDigits(n: int, u: nat)
    requires 1 <= u && MinDuration <= n * u <= MaxDuration
    ensures -Pow10(MaxIntDigits) < n < Pow10(MaxIntDigits)
  {
    assert Pow10(6) == 1_000_000;
    Pow10Add(6, 6);
    Pow10Add(12, 12);
    assert n <= n * u || n < 0;
    assert -n <= -(n * u) || n >= 0;
    Pow10Grows(24, MaxIntDigits);
  }

  /** A unit the handler cannot turn into a `timedelta` keyword is not the friendly
      "Invalid time period format" error but an exception that aborts the handler. */
  lemma UnknownUnitIsUncaught(n: string, u: string)
    requires IsWord(n) && IsWord(u) && IsInteger(n)
    requires KeywordMicros(Keyword(u)) == None
    ensures ParseTimePeriod(n + " " + u) == Err(Raised(UnknownKeyword))
  {
    SplitTwoWords(n, u);
  }

  /** Round trip: an integer written out, a space and a unit, singular or plural,
      parse back to that many units, when `timedelta` can hold the result. */
  lemma ParseFormatted(n: int, unit: string, u: nat)
    requires IsWord(unit) && !EndsWithS(unit)
    requires KeywordMicros(unit + "s") == Some(u)
    requires MinDuration <= n * u <= MaxDuration
    ensures ParseTimePeriod(Show(n) + " " + unit) == Ok(n * u)
    ensures ParseTimePeriod(Show(n) + " " + (unit + "s")) == Ok(n * u)
  {
    hide Split, ParseTimePeriod, Show, Interpret;
    DurationFitsDigits(n, u);
    ShowIsInteger(n);
    IntegerIsWord(Show(n));
    PluralIsSingular(Show(n), unit);
    ParseTwoWords(Show(n), unit);
  }

  /** Two words separated by a space are parsed as number and unit. */
  lemma ParseTwoWords(a: string, b: string)
    requires IsWord(a) && IsWord(b)
    ensures ParseTimePeriod(a + " " + b) == Interpret(a, b)
  {
    SplitTwoWords(a, b);
  }

  /** A text that is not two words, or whose first word is not an integer, is malformed. */
  lemma OneWordIsMalformed(w: string)
    requires IsWord(w)
    ensures ParseTimePeriod(w) == Err(Malformed)
  {
    SplitOneWord(w);
  }

  lemma NonIntegerIsMalformed(n: string, u: string)
    requires IsWord(n) && IsWord(u) && !IsInteger(n)
    ensures ParseTimePeriod(n + " " + u) == Err(Malformed)
  {
    SplitTwoWords(n, u);
  }
}
