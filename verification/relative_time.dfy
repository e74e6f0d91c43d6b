/**
 * `getRelativeTime` (app.js:33-44): how long ago a post was made, as "N days ago",
 * "N hours ago", "N minutes ago" or "Just now". The clock reading `now` is a parameter;
 * both times are whole milliseconds since the epoch.
 */
module RelativeTime {
  import opened Wrappers

  datatype TimeUnit = Minute | Hour | Day

  /** What the label says: nothing yet, or a count of one unit. */
  datatype Age = JustNow | Ago(count: nat, unit: TimeUnit)

  /** Milliseconds in one unit: 60 s, 60 min, 24 h. */
  function UnitMs(u: TimeUnit): nat
  {
    match u
    case Minute => 60 * 1000
    case Hour => 60 * 60 * 1000
    case Day => 24 * 60 * 60 * 1000
  }

  /** Floor division by `b` and then by `c` is floor division by `b * c` (for the divisors used here). */
  lemma DivDiv(a: int, b: int, c: int)
    requires (b, c) in {(1000, 60), (60000, 60), (3600000, 24)}
    ensures (a / b) / c == a / (b * c)
  {
    var q := a / b;
    var q2 := q / c;
    assert a == b * q + a % b;
    assert q == c * q2 + q % c;
    assert 0 <= b * (q % c) + a % b < b * c;
    assert a == (b * c) * q2 + (b * (q % c) + a % b);
  }

  /**
   * The age shown for a post created at `timestamp` (app.js:35-43): the whole days if there is
   * at least one, else the whole hours, else the whole minutes, else "Just now".
   */
  function AgeOf(now: int, timestamp: int): (r: Age)
    ensures r.JustNow? <==> now - timestamp < UnitMs(Minute)
    ensures r.Ago? ==> r.count >= 1
    ensures r.Ago? ==> r.count * UnitMs(r.unit) <= now - timestamp < (r.count + 1) * UnitMs(r.unit)
    ensures r.Ago? ==> (r.unit == Day <==> now - timestamp >= UnitMs(Day))
    ensures r.Ago? ==> (r.unit == Minute <==> now - timestamp < UnitMs(Hour))
  {
    var diff := now - timestamp;
    var seconds := diff / 1000;
    var minutes := seconds / 60;
    var hours := minutes / 60;
    var days := hours / 24;
    DivDiv(diff, 1000, 60);
    DivDiv(diff, 60000, 60);
    DivDiv(diff, 3600000, 24);
    assert minutes == diff / 60000 && hours == diff / 3600000 && days == diff / 86400000;
    if days > 0 then Ago(days, Day)
    else if hours > 0 then Ago(hours, Hour)
    else if minutes > 0 then Ago(minutes, Minute)
    else JustNow
  }

  function DigitChar(d: nat): (c: char)
    requires d < 10
    ensures '0' <= c <= '9'
  {
    ('0' as int + d) as char
  }

  /** `${n}`: the decimal digits of `n`, without leading zeros. */
  function Digits(n: nat): (r: string)
    ensures |r| >= 1
    ensures forall i :: 0 <= i < |r| ==> '0' <= r[i] <= '9'
    ensures r[0] == '0' ==> n == 0
  {
    if n < 10 then [DigitChar(n)] else Digits(n / 10) + [DigitChar(n % 10)]
  }

  /** The number a string of decimal digits denotes. */
  function DigitsValue(s: string): nat
    requires forall i :: 0 <= i < |s| ==> '0' <= s[i] <= '9'
  {
    if |s| == 0 then 0 else DigitsValue(s[..|s| - 1]) * 10 + (s[|s| - 1] as int - '0' as int)
  }

  /** Reading back the digits of `n` gives `n`. */
  lemma {:induction false} DigitsRoundTrip(n: nat)
    ensures DigitsValue(Digits(n)) == n
  {
    if n >= 10 {
      DigitsRoundTrip(n / 10);
      var s := Digits(n);
      assert s[..|s| - 1] == Digits(n / 10);
    }
  }

  function UnitWord(u: TimeUnit): string
  {
    match u
    case Minute => "minute"
    case Hour => "hour"
    case Day => "day"
  }

  /** The label of app.js:40-43, with "s" after the unit when the count is above one. */
  function Label(a: Age): string
  {
    match a
    case JustNow => "Just now"
    case Ago(n, u) => Digits(n) + UnitSuffix(u, n > 1) + " ago"
  }

  /** The last letter of a unit suffix is "s" exactly when it is plural: no unit word ends in "s". */
  lemma SuffixEnd(u: TimeUnit, p: bool)
    ensures |UnitSuffix(u, p)| >= 4
    ensures UnitSuffix(u, p)[|UnitSuffix(u, p)| - 1] == 's' <==> p
  {
  }

  /** The last five characters of `x + " ago"` are the last character of `x` and " ago". */
  lemma AgoTail(x: string)
    requires |x| >= 1
    ensures (x + " ago")[|x| - 1..] == [x[|x| - 1]] + " ago"
  {
  }

  /** A count's label ends in "s ago" exactly when the count is above one. */
  lemma AgoLabelTail(n: nat, u: TimeUnit)
    ensures |Label(Ago(n, u))| >= 5
    ensures Label(Ago(n, u))[|Label(Ago(n, u))| - 5..] == "s ago" <==> n > 1
  {
    var suffix := UnitSuffix(u, n > 1);
    var x := Digits(n) + suffix;
    assert Label(Ago(n, u)) == x + " ago";
    assert x[|x| - 1] == suffix[|suffix| - 1];
    SuffixEnd(u, n > 1);
    AgoTail(x);
    var tail := Label(Ago(n, u))[|Label(Ago(n, u))| - 5..];
    assert tail == [suffix[|suffix| - 1]] + " ago";
    if tail == "s ago" {
      assert tail[0] == 's';
    }
  }

  /** A label is "Just now" exactly for that age, and ends in "s ago" exactly for counts above one. */
  lemma LabelShape(a: Age)
    ensures Label(a) == "Just now" <==> a.JustNow?
    ensures |Label(a)| >= 5
    ensures Label(a)[|Label(a)| - 5..] == "s ago" <==> a.Ago? && a.count > 1
  {
    if a.Ago? {
      AgoLabelTail(a.count, a.unit);
      assert Label(a)[0] == Digits(a.count)[0];
    }
  }

  /** `getRelativeTime(timestamp)` read at clock value `now`. */
  function GetRelativeTime(now: int, timestamp: int): (r: string)
    ensures r == "Just now" <==> now - timestamp < UnitMs(Minute)
    ensures |r| >= 5
    ensures r[|r| - 5..] == "s ago" <==> AgeOf(now, timestamp).Ago? && AgeOf(now, timestamp).count > 1
  {
    LabelShape(AgeOf(now, timestamp));
    Label(AgeOf(now, timestamp))
  }

  predicate EndsWith(s: string, suffix: string)
  {
    |suffix| <= |s| && s[|s| - |suffix|..] == suffix
  }

  /** The unit part of a label: a space, the unit word, and "s" when plural. */
  function UnitSuffix(u: TimeUnit, plural: bool): string
  {
    " " + UnitWord(u) + (if plural then "s" else "")
  }

  /** The unit suffix `body` ends in, if any. */
  function MatchUnit(body: string): (r: Option<(TimeUnit, bool)>)
    ensures r.Some? ==> EndsWith(body, UnitSuffix(r.value.0, r.value.1))
    ensures r.None? ==> forall u, p :: !EndsWith(body, UnitSuffix(u, p))
  {
    if EndsWith(body, UnitSuffix(Day, true)) then Some((Day, true))
    else if EndsWith(body, UnitSuffix(Day, false)) then Some((Day, false))
    else if EndsWith(body, UnitSuffix(Hour, true)) then Some((Hour, true))
    else if EndsWith(body, UnitSuffix(Hour, false)) then Some((Hour, false))
    else if EndsWith(body, UnitSuffix(Minute, true)) then Some((Minute, true))
    else if EndsWith(body, UnitSuffix(Minute, false)) then Some((Minute, false))
    else None
  }

  predicate AllDigits(s: string)
  {
    forall i :: 0 <= i < |s| ==> '0' <= s[i] <= '9'
  }

  /** Reads the count in front of a unit suffix; `None` unless it is the canonical decimal of a count that agrees with the suffix's number. */
  function ParseCount(digits: string, u: TimeUnit, plural: bool): (r: Option<Age>)
    ensures r.Some? ==> Label(r.value) == digits + UnitSuffix(u, plural) + " ago"
  {
    if |digits| > 0 && AllDigits(digits) then
      var n := DigitsValue(digits);
      if Digits(n) == digits && (n > 1) == plural then Some(Ago(n, u)) else None
    else None
  }

  /** A string that ends in `suffix` is what comes before it followed by `suffix`. */
  lemma SplitAtSuffix(s: string, suffix: string)
    requires EndsWith(s, suffix)
    ensures s == s[..|s| - |suffix|] + suffix
  {
  }

  /** Reads the part of a label before " ago". */
  function ParseAgo(body: string): (r: Option<Age>)
    ensures r.Some? ==> Label(r.value) == body + " ago"
  {
    match MatchUnit(body)
    case None => None
    case Some((u, plural)) =>
      SplitAtSuffix(body, UnitSuffix(u, plural));
      ParseCount(body[..|body| - |UnitSuffix(u, plural)|], u, plural)
  }

  /** Reads a label back into the age it shows; `None` for any string no age is shown as. */
  function ParseLabel(s: string): (r: Option<Age>)
    ensures r.Some? ==> Label(r.value) == s
  {
    if s == "Just now" then Some(JustNow)
    else if !EndsWith(s, " ago") then None
    else
      assert s == s[..|s| - 4] + " ago";
      ParseAgo(s[..|s| - 4])
  }

  /** A unit suffix has its only space at the front. */
  lemma UnitSuffixSpace(u: TimeUnit, p: bool)
    ensures UnitSuffix(u, p)[0] == ' '
    ensures forall i :: 0 < i < |UnitSuffix(u, p)| ==> UnitSuffix(u, p)[i] != ' '
  {
    var w := UnitWord(u);
    assert forall i :: 0 <= i < |w| ==> w[i] != ' ';
  }

  lemma UnitSuffixInjective(u: TimeUnit, p: bool, u': TimeUnit, p': bool)
    requires UnitSuffix(u, p) == UnitSuffix(u', p')
    ensures u == u' && p == p'
  {
    var s := UnitSuffix(u, p);
    assert s[1] == UnitWord(u)[0] && s[1] == UnitWord(u')[0];
    if u == u' {
      assert |s| == |UnitWord(u)| + 1 + (if p then 1 else 0) == |UnitWord(u)| + 1 + (if p' then 1 else 0);
    }
  }

  /** No unit suffix ends in another one: each has its only space at the front. */
  lemma UnitSuffixesDiffer(body: string, u: TimeUnit, p: bool, u': TimeUnit, p': bool)
    requires EndsWith(body, UnitSuffix(u, p)) && EndsWith(body, UnitSuffix(u', p'))
    ensures u == u' && p == p'
  {
    var s1, s2 := UnitSuffix(u, p), UnitSuffix(u', p');
    UnitSuffixSpace(u, p);
    UnitSuffixSpace(u', p');
    if |s1| <= |s2| {
      assert s2[|s2| - |s1|..] == s1;
      assert s2[|s2| - |s1|] == ' ';
    }
    assert s1 == s2;
    UnitSuffixInjective(u, p, u', p');
  }

  /** The unit suffix found at the end of `d + UnitSuffix(u, p)` is that one. */
  lemma MatchOwnUnit(d: string, u: TimeUnit, p: bool)
    ensures MatchUnit(d + UnitSuffix(u, p)) == Some((u, p))
  {
    var body := d + UnitSuffix(u, p);
    assert body[|body| - |UnitSuffix(u, p)|..] == UnitSuffix(u, p);
    var m := MatchUnit(body);
    UnitSuffixesDiffer(body, m.value.0, m.value.1, u, p);
  }

  /** The digits and suffix of a count are read back as that count. */
  lemma ParseAgoRoundTrip(n: nat, u: TimeUnit)
    ensures ParseAgo(Digits(n) + UnitSuffix(u, n > 1)) == Some(Ago(n, u))
  {
    var d, suffix := Digits(n), UnitSuffix(u, n > 1);
    MatchOwnUnit(d, u, n > 1);
    assert (d + suffix)[..|d + suffix| - |suffix|] == d;
    DigitsRoundTrip(n);
  }

  /** Every age is read back from its own label: the label loses nothing. */
  lemma LabelRoundTrip(a: Age)
    ensures ParseLabel(Label(a)) == Some(a)
  {
    if a.Ago? {
      var body := Digits(a.count) + UnitSuffix(a.unit, a.count > 1);
      var s := Label(a);
      assert s == body + " ago";
      assert s[0] == body[0] == Digits(a.count)[0];
      assert s[..|s| - 4] == body;
      ParseAgoRoundTrip(a.count, a.unit);
    }
  }
}
