/** The timestamp pattern of `getIsoDate`: a loose profile of the ISO 8601
    extended date-time format (close to section 5.6 of RFC 3339).

    The pattern is a union of three alternatives,
      1. `YYYY-MM-DDThh:mm:ss.f+Z`   seconds and a fraction of at least one digit,
      2. `YYYY-MM-DDThh:mm:ssZ`      seconds,
      3. `YYYY-MM-DDThh:mmZ`         minutes only,
    where `Z` stands for either the letter `Z` or an offset `+hh:mm` / `-hh:mm`.
    Every position is checked only against a digit range (month `[01]\d`, day
    `[0-3]\d`, hour `[0-2]\d`, minute and second `[0-5]\d`), not against the
    calendar ranges of section 5.7 of RFC 3339. The pattern carries no `^` or
    `$`, so a string is accepted when SOME substring of it is a timestamp.

    `Timestamp` and `ContainsTimestamp` state the language declaratively;
    `Test` is the scan that decides it, and its contract states that the two
    agree. */
module IsoTimestamp {
  import opened JsValue

  predicate DigitUpTo(c: char, hi: char) {
    '0' <= c <= hi
  }

  /** `\d{4}-[01]\d-[0-3]\dT[0-2]\d:[0-5]\d` */
  predicate DateHourMinute(t: string) {
    && |t| == 16
    && IsDigit(t[0]) && IsDigit(t[1]) && IsDigit(t[2]) && IsDigit(t[3]) && t[4] == '-'
    && DigitUpTo(t[5], '1') && IsDigit(t[6]) && t[7] == '-'
    && DigitUpTo(t[8], '3') && IsDigit(t[9]) && t[10] == 'T'
    && DigitUpTo(t[11], '2') && IsDigit(t[12]) && t[13] == ':'
    && DigitUpTo(t[14], '5') && IsDigit(t[15])
  }

  /** `:[0-5]\d` */
  predicate Seconds(t: string) {
    |t| == 3 && t[0] == ':' && DigitUpTo(t[1], '5') && IsDigit(t[2])
  }

  /** `\.\d+` */
  predicate Fraction(t: string) {
    |t| >= 2 && t[0] == '.' && AllDigits(t[1..])
  }

  /** `[+-][0-2]\d:[0-5]\d|Z` */
  predicate Zone(t: string) {
    || t == "Z"
    || (&& |t| == 6
        && (t[0] == '+' || t[0] == '-')
        && DigitUpTo(t[1], '2') && IsDigit(t[2]) && t[3] == ':'
        && DigitUpTo(t[4], '5') && IsDigit(t[5]))
  }

  /** Alternative 1: seconds, a fraction, a zone. */
  ghost predicate WithFraction(t: string) {
    && |t| >= 19
    && DateHourMinute(t[..16])
    && Seconds(t[16..19])
    && exists k :: 19 <= k <= |t| && Fraction(t[19..k]) && Zone(t[k..])
  }

  /** Alternative 2: seconds, a zone. */
  predicate WithSeconds(t: string) {
    |t| >= 19 && DateHourMinute(t[..16]) && Seconds(t[16..19]) && Zone(t[19..])
  }

  /** Alternative 3: minutes, a zone. */
  predicate WithMinutes(t: string) {
    |t| >= 16 && DateHourMinute(t[..16]) && Zone(t[16..])
  }

  /** `t` as a whole is matched by the pattern. */
  ghost predicate Timestamp(t: string) {
    WithFraction(t) || WithSeconds(t) || WithMinutes(t)
  }

  /** The unanchored pattern finds a match in `s`. */
  ghost predicate ContainsTimestamp(s: string) {
    exists i, j :: 0 <= i <= j <= |s| && Timestamp(s[i..j])
  }

  // ---------------------------------------------------------------------
  // The scan

  /** A zone designator starts at position `k` of `s`. */
  predicate ZoneAt(s: string, k: nat) {
    || (k < |s| && s[k] == 'Z')
    || (k + 6 <= |s| && Zone(s[k..k + 6]))
  }

  /** Zero or more digits, then a zone designator, start at position `k`. */
  predicate DigitsThenZoneAt(s: string, k: nat)
    decreases |s| - k
  {
    || ZoneAt(s, k)
    || (k < |s| && IsDigit(s[k]) && DigitsThenZoneAt(s, k + 1))
  }

  /** One of the three alternatives matches a substring starting at `i`. */
  predicate MatchAt(s: string, i: nat) {
    && i + 16 <= |s|
    && DateHourMinute(s[i..i + 16])
    && (|| ZoneAt(s, i + 16)
        || (&& i + 19 <= |s|
            && Seconds(s[i + 16..i + 19])
            && (|| ZoneAt(s, i + 19)
                || (&& i + 21 <= |s|
                    && s[i + 19] == '.'
                    && IsDigit(s[i + 20])
                    && DigitsThenZoneAt(s, i + 21)))))
  }

  /** Some start position `i` or later has a match. */
  predicate MatchFrom(s: string, i: nat)
    decreases |s| - i
  {
    i <= |s| && (MatchAt(s, i) || (i < |s| && MatchFrom(s, i + 1)))
  }

  /** `isoDateRegex.test(s)`: the scan accepts exactly the strings that
      contain a timestamp. */
  predicate Test(s: string): (accepted: bool)
    ensures accepted <==> ContainsTimestamp(s)
  {
    MatchFromIff(s, 0);
    MatchFrom(s, 0)
  }

  // ---------------------------------------------------------------------
  // The scan decides the declarative language

  lemma ZoneAtIff(s: string, k: nat)
    requires k <= |s|
    ensures ZoneAt(s, k) <==> exists j :: k <= j <= |s| && Zone(s[k..j])
  {
    if k < |s| && s[k] == 'Z' {
      assert s[k..k + 1] == "Z";
    }
    if k + 6 <= |s| && Zone(s[k..k + 6]) {
      assert Zone(s[k..k + 6]);
    }
    if j :| k <= j <= |s| && Zone(s[k..j]) {
      if s[k..j] == "Z" {
        assert j == k + 1 && s[k] == s[k..j][0];
      } else {
        assert j == k + 6;
      }
    }
  }

  /** The characters of `s` at positions `a` .. `b - 1` are digits. */
  predicate DigitsBetween(s: string, a: nat, b: nat) {
    forall x :: a <= x < b && x < |s| ==> IsDigit(s[x])
  }

  lemma DigitsBetweenSlice(s: string, a: nat, b: nat)
    requires a <= b <= |s|
    ensures AllDigits(s[a..b]) <==> DigitsBetween(s, a, b)
  {
    if AllDigits(s[a..b]) {
      forall x | a <= x < b ensures IsDigit(s[x]) {
        assert s[x] == s[a..b][x - a];
      }
    }
  }

  lemma SliceOfSlice(s: string, i: nat, j: nat, a: nat, b: nat)
    requires i <= j <= |s| && a <= b <= j - i
    ensures s[i..j][a..b] == s[i + a..i + b]
  {
    forall x | 0 <= x < b - a ensures s[i..j][a..b][x] == s[i + a..i + b][x] {
      assert s[i..j][a..b][x] == s[i + a + x];
    }
  }

  lemma {:induction false} DigitsThenZoneAtIff(s: string, k: nat)
    requires k <= |s|
    ensures DigitsThenZoneAt(s, k) <==>
              exists m :: k <= m <= |s| && DigitsBetween(s, k, m) && ZoneAt(s, m)
    decreases |s| - k
  {
    if ZoneAt(s, k) {
      assert DigitsBetween(s, k, k);
    }
    if k < |s| && IsDigit(s[k]) && DigitsThenZoneAt(s, k + 1) {
      DigitsThenZoneAtIff(s, k + 1);
      var m :| k + 1 <= m <= |s| && DigitsBetween(s, k + 1, m) && ZoneAt(s, m);
      assert DigitsBetween(s, k, m);
    }
    if m :| k <= m <= |s| && DigitsBetween(s, k, m) && ZoneAt(s, m) {
      if m > k {
        assert DigitsBetween(s, k + 1, m);
        DigitsThenZoneAtIff(s, k + 1);
      }
    }
  }

  /** Alternative 3 matches `s[i..j]` for some `j` exactly when the scan's
      minute branch succeeds at `i`. */
  lemma MinutesAtIff(s: string, i: nat)
    requires i + 16 <= |s|
    ensures (DateHourMinute(s[i..i + 16]) && ZoneAt(s, i + 16)) <==>
              exists j :: i <= j <= |s| && WithMinutes(s[i..j])
  {
    ZoneAtIff(s, i + 16);
    if DateHourMinute(s[i..i + 16]) && ZoneAt(s, i + 16) {
      var j :| i + 16 <= j <= |s| && Zone(s[i + 16..j]);
      assert s[i..j][..16] == s[i..i + 16] && s[i..j][16..] == s[i + 16..j];
    }
    if j :| i <= j <= |s| && WithMinutes(s[i..j]) {
      assert s[i..j][..16] == s[i..i + 16] && s[i..j][16..] == s[i + 16..j];
    }
  }

  /** The same for alternative 2. */
  lemma SecondsAtIff(s: string, i: nat)
    requires i + 19 <= |s|
    ensures (DateHourMinute(s[i..i + 16]) && Seconds(s[i + 16..i + 19]) && ZoneAt(s, i + 19)) <==>
              exists j :: i <= j <= |s| && WithSeconds(s[i..j])
  {
    ZoneAtIff(s, i + 19);
    if DateHourMinute(s[i..i + 16]) && Seconds(s[i + 16..i + 19]) && ZoneAt(s, i + 19) {
      var j :| i + 19 <= j <= |s| && Zone(s[i + 19..j]);
      SliceOfSlice(s, i, j, 0, 16);
      SliceOfSlice(s, i, j, 16, 19);
      SliceOfSlice(s, i, j, 19, j - i);
    }
    if j :| i <= j <= |s| && WithSeconds(s[i..j]) {
      SliceOfSlice(s, i, j, 0, 16);
      SliceOfSlice(s, i, j, 16, 19);
      SliceOfSlice(s, i, j, 19, j - i);
    }
  }

  /** The same for alternative 1. */
  lemma FractionAtIff(s: string, i: nat)
    requires i + 19 <= |s|
    ensures (&& DateHourMinute(s[i..i + 16]) && Seconds(s[i + 16..i + 19])
             && i + 21 <= |s| && s[i + 19] == '.' && IsDigit(s[i + 20]) && DigitsThenZoneAt(s, i + 21)) <==>
              exists j :: i <= j <= |s| && WithFraction(s[i..j])
  {
    if && DateHourMinute(s[i..i + 16]) && Seconds(s[i + 16..i + 19])
       && i + 21 <= |s| && s[i + 19] == '.' && IsDigit(s[i + 20]) && DigitsThenZoneAt(s, i + 21)
    {
      DigitsThenZoneAtIff(s, i + 21);
      var m :| i + 21 <= m <= |s| && DigitsBetween(s, i + 21, m) && ZoneAt(s, m);
      ZoneAtIff(s, m);
      var j :| m <= j <= |s| && Zone(s[m..j]);
      FractionBetween(s, i, j, m - i);
    }
    if j :| i <= j <= |s| && WithFraction(s[i..j]) {
      var k :| 19 <= k <= |s[i..j]| && Fraction(s[i..j][19..k]) && Zone(s[i..j][k..]);
      FractionBetween(s, i, j, k);
      ZoneAtIff(s, i + k);
      DigitsThenZoneAtIff(s, i + 21);
    }
  }

  /** Alternative 1 on `s[i..j]` with the zone starting at offset `k`, in terms of positions of `s`. */
  lemma FractionBetween(s: string, i: nat, j: nat, k: nat)
    requires i + 19 <= j <= |s| && 19 <= k <= j - i
    ensures (DateHourMinute(s[i..j][..16]) && Seconds(s[i..j][16..19]) && Fraction(s[i..j][19..k]) && Zone(s[i..j][k..])) <==>
            (&& DateHourMinute(s[i..i + 16]) && Seconds(s[i + 16..i + 19])
             && i + 21 <= i + k && s[i + 19] == '.' && IsDigit(s[i + 20])
             && DigitsBetween(s, i + 21, i + k) && Zone(s[i + k..j]))
    ensures (DateHourMinute(s[i..j][..16]) && Seconds(s[i..j][16..19]) && Fraction(s[i..j][19..k]) && Zone(s[i..j][k..])) ==>
            WithFraction(s[i..j])
  {
    SliceOfSlice(s, i, j, 0, 16);
    SliceOfSlice(s, i, j, 16, 19);
    SliceOfSlice(s, i, j, 19, k);
    SliceOfSlice(s, i, j, k, j - i);
    var f := s[i + 19..i + k];
    if k >= 21 {
      assert f[1..] == s[i + 20..i + k];
      DigitsBetweenSlice(s, i + 20, i + k);
      assert f[0] == s[i + 19];
    }
  }

  /** A match starts at `i` exactly when some substring starting at `i` is a timestamp. */
  lemma MatchAtIff(s: string, i: nat)
    requires i <= |s|
    ensures MatchAt(s, i) <==> exists j :: i <= j <= |s| && Timestamp(s[i..j])
  {
    if i + 16 <= |s| {
      MinutesAtIff(s, i);
      if i + 19 <= |s| {
        SecondsAtIff(s, i);
        FractionAtIff(s, i);
      } else {
        forall j | i <= j <= |s| ensures !WithSeconds(s[i..j]) && !WithFraction(s[i..j]) { }
      }
    } else {
      forall j | i <= j <= |s| ensures !Timestamp(s[i..j]) { }
    }
  }

  lemma {:induction false} MatchFromIff(s: string, i: nat)
    requires i <= |s|
    ensures MatchFrom(s, i) <==> exists a, j :: i <= a <= j <= |s| && Timestamp(s[a..j])
    decreases |s| - i
  {
    MatchAtIff(s, i);
    if i < |s| {
      MatchFromIff(s, i + 1);
    }
    if a, j :| i <= a <= j <= |s| && Timestamp(s[a..j]) {
      if a == i {
        assert MatchAt(s, i);
      } else {
        assert MatchFrom(s, i + 1);
      }
    }
  }


  // ---------------------------------------------------------------------
  // What the pattern accepts and rejects

  /** Every timestamp has the time separator `T` at offset 10 and is at least
      17 characters long (`YYYY-MM-DDThh:mmZ`). */
  lemma TimestampShape(t: string)
    requires Timestamp(t)
    ensures |t| >= 17 && t[10] == 'T'
  {
    assert t[..16][10] == t[10];
    if WithFraction(t) {
      var k :| 19 <= k <= |t| && Fraction(t[19..k]) && Zone(t[k..]);
      assert |t[k..]| >= 1;
    } else if WithSeconds(t) {
      assert |t[19..]| >= 1;
    } else {
      assert |t[16..]| >= 1;
    }
  }

  /** A string without a `T` is rejected: a calendar date alone is never accepted. */
  lemma {:induction false} NoTimeSeparatorRejected(s: string)
    requires forall x :: 0 <= x < |s| ==> s[x] != 'T'
    ensures !Test(s)
  {
    if i, j :| 0 <= i <= j <= |s| && Timestamp(s[i..j]) {
      TimestampShape(s[i..j]);
      assert false;
    }
  }

  /** A string shorter than 17 characters is rejected. */
  lemma {:induction false} ShortStringRejected(s: string)
    requires |s| < 17
    ensures !Test(s)
  {
    if i, j :| 0 <= i <= j <= |s| && Timestamp(s[i..j]) {
      TimestampShape(s[i..j]);
    }
  }

  lemma BareDateRejected()
    ensures !Test("2021-04-01")
  {
    NoMatchNearEnd("2021-04-01", 0);
  }

  /** Only digit ranges are checked: month 19, day 39 and hour 29 pass. */
  lemma DigitRangesOnlyAccepted()
    ensures Test("2021-19-39T29:00Z")
  {
    var s := "2021-19-39T29:00Z";
    assert s[0..|s|] == s;
    assert WithMinutes(s[0..|s|]) by {
      assert s[..16] == "2021-19-39T29:00" && s[16..] == "Z";
    }
  }

  /** A timestamp with a fraction and an offset, the first alternative. */
  lemma FractionWithOffsetAccepted()
    ensures Test("2021-04-01T10:15:30.250+02:00")
  {
    var s := "2021-04-01T10:15:30.250+02:00";
    assert s[0..|s|] == s;
    assert WithFraction(s) by {
      assert s[..16] == "2021-04-01T10:15" && s[16..19] == ":30";
      assert s[19..23] == ".250" && s[23..] == "+02:00";
      assert Fraction(s[19..23]) by {
        assert s[19..23][1..] == "250";
      }
    }
  }

  /** A month of 2 or higher in its first digit is rejected, wherever it stands. */
  lemma MonthFirstDigitChecked()
    ensures !Test("2021-24-01T10:00Z")
  {
    var s := "2021-24-01T10:00Z";
    assert !MatchAt(s, 0) && !MatchAt(s, 1);
    assert !MatchFrom(s, 2) by {
      NoMatchNearEnd(s, 2);
    }
  }

  /** No match starts within 16 characters of the end. */
  lemma {:induction false} NoMatchNearEnd(s: string, i: nat)
    requires |s| < i + 16
    ensures !MatchFrom(s, i)
    decreases |s| - i
  {
    if i < |s| {
      NoMatchNearEnd(s, i + 1);
    }
  }

  /** The match is unanchored: text around a timestamp does not matter. */
  lemma Unanchored(pre: string, s: string, post: string)
    requires Test(s)
    ensures Test(pre + s + post)
  {
    var i, j :| 0 <= i <= j <= |s| && Timestamp(s[i..j]);
    var w := pre + s + post;
    assert w[|pre| + i..|pre| + j] == s[i..j];
  }
}
