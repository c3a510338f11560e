/** The `time_ago` duration parser of the alert engine (`parse_time_ago` in
    src/WeatherAlert.py). A rule's comparison offset is written as digits
    followed by a unit letter, e.g. "30m", "2h", "1d". The source strips the
    string and then applies `re.match(r"(\d+)([dhm])", ...)`, which anchors
    only at the start: trailing text after the unit letter is ignored. */
module TimeAgo {
  import opened Wrappers

  /** The SQL interval units the parser returns ("DAY", "HOUR", "MINUTE"). */
  datatype TimeUnit = Day | Hour | Minute

  datatype ParseError = InvalidFormat

  /** Length of one unit in seconds, as MySQL's `INTERVAL n unit` on
      wall-clock DATETIME values. */
  function UnitSeconds(u: TimeUnit): nat
  {
    match u
    case Day => 86400
    case Hour => 3600
    case Minute => 60
  }

  function UnitChar(u: TimeUnit): char
  {
    match u
    case Day => 'd'
    case Hour => 'h'
    case Minute => 'm'
  }

  function UnitOf(c: char): Option<TimeUnit>
  {
    if c == 'd' then Some(Day)
    else if c == 'h' then Some(Hour)
    else if c == 'm' then Some(Minute)
    else None
  }

  /** The characters Python's `str.strip()` removes (the ASCII and Latin-1
      ones; see README for the rest of Unicode). */
  predicate IsSpace(c: char)
  {
    c == ' ' || c == '\t' || c == '\n' || c == '\r' || c == '\U{B}' || c == '\U{C}'
    || ('\U{1C}' <= c <= '\U{1F}') || c == '\U{85}' || c == '\U{A0}'
  }

  predicate IsDigit(c: char)
  {
    '0' <= c <= '9'
  }

  /** Number of whitespace characters at the start of `s`. */
  function LeadingSpaces(s: string): (k: nat)
    ensures k <= |s|
    ensures forall i :: 0 <= i < k ==> IsSpace(s[i])
    ensures k < |s| ==> !IsSpace(s[k])
  {
    if s != [] && IsSpace(s[0]) then 1 + LeadingSpaces(s[1..]) else 0
  }

  /** Number of whitespace characters at the end of `s`. */
  function TrailingSpaces(s: string): (k: nat)
    ensures k <= |s|
    ensures forall i :: |s| - k <= i < |s| ==> IsSpace(s[i])
    ensures k < |s| ==> !IsSpace(s[|s| - k - 1])
  {
    if s != [] && IsSpace(s[|s| - 1]) then 1 + TrailingSpaces(s[..|s| - 1]) else 0
  }

  /** `s.strip()`. */
  function Strip(s: string): string
  {
    var t := s[LeadingSpaces(s)..];
    t[..|t| - TrailingSpaces(t)]
  }

  /** Length of the run of decimal digits at the start of `s` (`\d+` is
      greedy, and backing off cannot help since a digit is never a unit). */
  function DigitRun(s: string): (k: nat)
    ensures k <= |s|
    ensures forall i :: 0 <= i < k ==> IsDigit(s[i])
    ensures k < |s| ==> !IsDigit(s[k])
  {
    if s != [] && IsDigit(s[0]) then 1 + DigitRun(s[1..]) else 0
  }

  /** `int(ds)` for a string of decimal digits (leading zeros allowed). */
  function DigitsValue(ds: string): nat
    requires forall i :: 0 <= i < |ds| ==> IsDigit(ds[i])
  {
    if ds == [] then 0
    else
      var d := ds[|ds| - 1];
      assert IsDigit(d);
      DigitsValue(ds[..|ds| - 1]) * 10 + (d as int - '0' as int)
  }

  /** The regular-expression match on an already stripped string. */
  function Match(t: string): Result<(nat, TimeUnit), ParseError>
  {
    var k := DigitRun(t);
    if k == 0 || k == |t| || UnitOf(t[k]).None? then Err(InvalidFormat)
    else Ok((DigitsValue(t[..k]), UnitOf(t[k]).value))
  }

  /** `parse_time_ago`: Ok((n, unit)), or the ValueError it raises. A
      successful parse always comes from some whitespace, a non-empty run of
      digits whose value is the number, the unit's letter, and then
      anything. */
  function ParseTimeAgo(s: string): (r: Result<(nat, TimeUnit), ParseError>)
    ensures r.Ok? ==> exists j, k :: WellFormedAt(s, j, k, r.value.0, r.value.1)
  {
    MatchSound(s);
    Match(Strip(s))
  }

  /** The decimal rendering of `n`, used to state the round trip. */
  function NatToDigits(n: nat): (ds: string)
    ensures |ds| > 0
    ensures forall i :: 0 <= i < |ds| ==> IsDigit(ds[i])
  {
    if n < 10 then [('0' as int + n) as char]
    else NatToDigits(n / 10) + [('0' as int + n % 10) as char]
  }

  lemma {:induction false} DigitsValueOfNatToDigits(n: nat)
    ensures DigitsValue(NatToDigits(n)) == n
  {
    var ds := NatToDigits(n);
    if n >= 10 {
      assert ds[..|ds| - 1] == NatToDigits(n / 10);
      DigitsValueOfNatToDigits(n / 10);
    }
  }

  lemma LeadingSpacesOfPadded(pad: string, x: string)
    requires forall i :: 0 <= i < |pad| ==> IsSpace(pad[i])
    requires |x| > 0 && !IsSpace(x[0])
    ensures LeadingSpaces(pad + x) == |pad|
  {
    var s := pad + x;
    assert s[|pad|] == x[0];
    assert forall i :: 0 <= i < |pad| ==> s[i] == pad[i];
  }

  /** Stripping the end never reaches past a non-space character. */
  lemma TrimEndKeepsPrefix(v: string, m: nat)
    requires m < |v| && !IsSpace(v[m])
    ensures m < |v| - TrailingSpaces(v)
  {
  }

  /** The match only looks at the digits and the letter after them. */
  lemma {:induction false} MatchDigitsUnit(ds: string, u: TimeUnit, w: string)
    requires |ds| > 0 && forall i :: 0 <= i < |ds| ==> IsDigit(ds[i])
    ensures Match(ds + [UnitChar(u)] + w) == Ok((DigitsValue(ds), u))
  {
    var c := UnitChar(u);
    var t := ds + [c] + w;
    assert t == ds + ([c] + w);
    UnitCharClass(u);
    DigitRunOfDigits(ds, [c] + w);
    assert t[..|ds|] == ds;
    assert t[|ds|] == c;
    assert UnitOf(c) == Some(u);
  }

  /** `\d+` on digits followed by a non-digit takes exactly the digits. */
  lemma {:induction false} DigitRunOfDigits(ds: string, rest: string)
    requires forall i :: 0 <= i < |ds| ==> IsDigit(ds[i])
    requires rest != [] && !IsDigit(rest[0])
    ensures DigitRun(ds + rest) == |ds|
    decreases |ds|
  {
    if ds == [] {
      assert ds + rest == rest;
    } else {
      assert (ds + rest)[1..] == ds[1..] + rest;
      DigitRunOfDigits(ds[1..], rest);
    }
  }

  /** Any leading whitespace, then a non-empty run of digits and a unit
      letter, then anything at all: the parser returns the value of the
      digits (leading zeros allowed) and the unit. Trailing text after the
      unit is ignored. */
  lemma ParseDigits(pad: string, ds: string, u: TimeUnit, rest: string)
    requires forall i :: 0 <= i < |pad| ==> IsSpace(pad[i])
    requires |ds| > 0 && forall i :: 0 <= i < |ds| ==> IsDigit(ds[i])
    ensures ParseTimeAgo(pad + ds + [UnitChar(u)] + rest) == Ok((DigitsValue(ds), u))
  {
    var w := StripKeepsToken(pad, ds, u, rest);
    MatchDigitsUnit(ds, u, w);
  }

  /** In particular the decimal rendering of any n parses back to n. */
  lemma ParseRoundTrip(pad: string, n: nat, u: TimeUnit, rest: string)
    requires forall i :: 0 <= i < |pad| ==> IsSpace(pad[i])
    ensures ParseTimeAgo(pad + NatToDigits(n) + [UnitChar(u)] + rest) == Ok((n, u))
  {
    ParseDigits(pad, NatToDigits(n), u, rest);
    DigitsValueOfNatToDigits(n);
  }

  /** Stripping keeps the digits and the unit letter at the front. */
  lemma {:induction false} StripKeepsToken(pad: string, ds: string, u: TimeUnit, rest: string) returns (w: string)
    requires forall i :: 0 <= i < |pad| ==> IsSpace(pad[i])
    requires |ds| > 0 && forall i :: 0 <= i < |ds| ==> IsDigit(ds[i])
    ensures Strip(pad + ds + [UnitChar(u)] + rest) == ds + [UnitChar(u)] + w
  {
    var x := ds + [UnitChar(u)] + rest;
    assert pad + ds + [UnitChar(u)] + rest == pad + x;
    assert x[0] == ds[0] && x[|ds|] == UnitChar(u);
    DigitNotSpace(ds[0]);
    UnitCharClass(u);
    StripPadded(pad, x);
    TrimEndKeepsPrefix(x, |ds|);
    var t := x[..|x| - TrailingSpaces(x)];
    w := t[|ds| + 1..];
    assert t == ds + [UnitChar(u)] + w;
  }

  /** Stripping a padded string that starts with a non-space drops exactly
      the padding at the front. */
  lemma StripPadded(pad: string, x: string)
    requires forall i :: 0 <= i < |pad| ==> IsSpace(pad[i])
    requires |x| > 0 && !IsSpace(x[0])
    ensures Strip(pad + x) == x[..|x| - TrailingSpaces(x)]
  {
    LeadingSpacesOfPadded(pad, x);
    assert (pad + x)[|pad|..] == x;
  }

  /** The stripped string is the slice of `s` that starts after the leading
      whitespace. */
  lemma StripSlice(s: string)
    ensures LeadingSpaces(s) + |Strip(s)| <= |s|
    ensures forall i :: 0 <= i < |Strip(s)| ==> Strip(s)[i] == s[LeadingSpaces(s) + i]
  {
  }

  lemma DigitNotSpace(c: char)
    requires IsDigit(c)
    ensures !IsSpace(c)
  {
  }

  /** A unit letter is neither whitespace nor a digit. */
  lemma UnitCharClass(u: TimeUnit)
    ensures !IsSpace(UnitChar(u)) && !IsDigit(UnitChar(u))
  {
  }

  lemma UnitOfChar(c: char, u: TimeUnit)
    requires UnitOf(c) == Some(u)
    ensures c == UnitChar(u)
  {
  }

  lemma {:induction false} MatchSound(s: string)
    ensures var r := Match(Strip(s));
            r.Ok? ==> exists j, k :: WellFormedAt(s, j, k, r.value.0, r.value.1)
  {
    var r := Match(Strip(s));
    if r.Ok? {
      var j := LeadingSpaces(s);
      var t := Strip(s);
      StripSlice(s);
      var k := DigitRun(t);
      assert t[..k] == s[j..j + k];
      UnitOfChar(t[k], r.value.1);
      assert WellFormedAt(s, j, k, r.value.0, r.value.1);
    }
  }

  /** `s` is `j` whitespace characters, then `k` digits denoting `n`, then the
      letter of `u`, then anything. */
  predicate WellFormedAt(s: string, j: nat, k: nat, n: nat, u: TimeUnit)
  {
    j + k < |s| && k > 0
    && (forall i :: 0 <= i < j ==> IsSpace(s[i]))
    && (forall i :: j <= i < j + k ==> IsDigit(s[i]))
    && DigitsValue(s[j..j + k]) == n
    && s[j + k] == UnitChar(u)
  }

  /** Strings that are not "digits then unit letter" after stripping are
      rejected: a unit without a number, a negative number, the week unit,
      a number without a unit. */
  lemma ParseRejectsUnitOnly()
    ensures ParseTimeAgo("m").Err?
  {
    assert Strip("m") == "m";
  }

  lemma ParseRejectsNegative()
    ensures ParseTimeAgo("-1h").Err?
  {
    assert Strip("-1h") == "-1h";
  }

  lemma ParseRejectsWeeks()
    ensures ParseTimeAgo("2w").Err?
  {
    assert Strip("2w") == "2w";
    assert DigitRun("2w") == 1;
  }

  lemma ParseRejectsNoUnit()
    ensures ParseTimeAgo("12").Err?
  {
    assert Strip("12") == "12";
    assert DigitRun("12") == 2;
  }
}
